/** The pose-estimation front end (inference.py): the model is loaded once per process,
    an image path is dispatched to a decoder by its extension, and the network output is
    cut to the first two coordinates of every keypoint. The TensorFlow work itself
    (`hub.load`, reading, decoding, resizing and running the network) is a parameter. */
module Inference {
  import opened Results

  /** `hub.load(url).signatures["serving_default"]`: the callable signature of the model
      published at `url`. */
  datatype Model = ServingDefault(url: string)

  /** The `image` argument: a file path (`str`) or anything else, such as a tensor. */
  datatype ImageInput = PathInput(path: string) | TensorInput

  /** The decoders `preprocess_and_predict` chooses between. */
  datatype Decoder = Png | Jpeg

  /** The `ValueError` raised for an unusable `image` argument. */
  datatype InputError = ValueError(message: string)

  const UnsupportedFormat := "Unsupported image format. Supported formats: PNG, JPEG/JPG."
  const UnsupportedType := "Unsupported input type. Expected file path (str)"

  /** `str.lower()` on one character, for the ASCII letters. */
  function LowerChar(c: char): (r: char)
    ensures 'A' <= c <= 'Z' ==> r as int == c as int + 32
    ensures !('A' <= c <= 'Z') ==> r == c
    ensures !('A' <= r <= 'Z')
  {
    if 'A' <= c <= 'Z' then (c as int + 32) as char else c
  }

  /** `str.lower()`: every character lowered, the length unchanged. */
  function Lower(s: string): (r: string)
    ensures |r| == |s|
    ensures forall i :: 0 <= i < |s| ==> r[i] == LowerChar(s[i])
  {
    if s == [] then [] else [LowerChar(s[0])] + Lower(s[1..])
  }

  /** `str.endswith(suffix)`. */
  predicate EndsWith(s: string, suffix: string)
  {
    |suffix| <= |s| && s[|s| - |suffix|..] == suffix
  }

  /** Lowering twice is lowering once. */
  lemma LowerIdempotent(s: string)
    ensures Lower(Lower(s)) == Lower(s)
  {
  }

  /** The extension check of `preprocess_and_predict`: a path whose lower-case form ends
      in ".png" is decoded as PNG, one ending in ".jpeg" or ".jpg" as JPEG, any other path
      is an unsupported format, and an input that is not a path an unsupported type. */
  function SelectDecoder(image: ImageInput): (r: Result<Decoder, InputError>)
    ensures image.TensorInput? ==> r == Err(ValueError(UnsupportedType))
    ensures image.PathInput? ==>
      (r == Ok(Png) <==> EndsWith(Lower(image.path), ".png"))
    ensures image.PathInput? ==>
      (r == Ok(Jpeg) <==> EndsWith(Lower(image.path), ".jpeg") || EndsWith(Lower(image.path), ".jpg"))
    ensures image.PathInput? ==>
      (r == Err(ValueError(UnsupportedFormat)) <==>
         !EndsWith(Lower(image.path), ".png") && !EndsWith(Lower(image.path), ".jpeg") &&
         !EndsWith(Lower(image.path), ".jpg"))
    ensures r.Err? ==> r == Err(ValueError(UnsupportedType)) || r == Err(ValueError(UnsupportedFormat))
  {
    match image
    case TensorInput => Err(ValueError(UnsupportedType))
    case PathInput(path) =>
      var lowered := Lower(path);
      ExtensionsExclusive(lowered);
      if EndsWith(lowered, ".png") then Ok(Png)
      else if EndsWith(lowered, ".jpeg") || EndsWith(lowered, ".jpg") then Ok(Jpeg)
      else Err(ValueError(UnsupportedFormat))
  }

  /** No string ends in both ".png" and one of the JPEG extensions, so the order of the
      two tests does not matter. */
  lemma ExtensionsExclusive(s: string)
    ensures EndsWith(s, ".png") ==> !EndsWith(s, ".jpeg") && !EndsWith(s, ".jpg")
  {
    assert EndsWith(s, ".png") ==> s[|s| - 2] == ".png"[2] == 'n';
    assert EndsWith(s, ".jpeg") ==> s[|s| - 2] == ".jpeg"[3] == 'e';
    assert EndsWith(s, ".jpg") ==> s[|s| - 2] == ".jpg"[2] == 'p';
  }

  /** Two paths that agree once lowered are decoded alike: the dispatch ignores case. */
  lemma SelectDecoderIgnoresCase(p: string, q: string)
    requires Lower(p) == Lower(q)
    ensures SelectDecoder(PathInput(p)) == SelectDecoder(PathInput(q))
  {
  }

  /** In particular a path and its lower-case form are decoded alike. */
  lemma SelectDecoderOfLowered(p: string)
    ensures SelectDecoder(PathInput(Lower(p))) == SelectDecoder(PathInput(p))
  {
    LowerIdempotent(p);
    SelectDecoderIgnoresCase(Lower(p), p);
  }

  /** Lowering works character by character, so it distributes over concatenation. */
  lemma LowerAppend(s: string, t: string)
    ensures Lower(s + t) == Lower(s) + Lower(t)
  {
    var l, r := Lower(s + t), Lower(s) + Lower(t);
    assert |l| == |r|;
    forall i | 0 <= i < |l| ensures l[i] == r[i] {
      if i < |s| {
        assert (s + t)[i] == s[i];
      } else {
        assert (s + t)[i] == t[i - |s|];
      }
    }
  }

  lemma EndsWithAppend(s: string, t: string)
    ensures EndsWith(s + t, t)
  {
    assert (s + t)[|s + t| - |t|..] == t;
  }

  /** A string whose last character differs from the last character of `suffix` does
      not end with `suffix`. */
  lemma LastCharDiffers(s: string, suffix: string)
    requires 0 < |s| && 0 < |suffix| && s[|s| - 1] != suffix[|suffix| - 1]
    ensures !EndsWith(s, suffix)
  {
    if |suffix| <= |s| {
      assert s[|s| - |suffix|..][|suffix| - 1] == s[|s| - 1];
    }
  }

  /** `Lower(s) == t`, checked one character at a time. */
  lemma LowerLiteral(s: string, t: string)
    requires |s| == |t| && forall i :: 0 <= i < |s| ==> LowerChar(s[i]) == t[i]
    ensures Lower(s) == t
  {
  }

  /** Any file name with an upper-case ".JPG" extension is decoded as JPEG. */
  lemma UpperCaseJpeg(stem: string)
    ensures SelectDecoder(PathInput(stem + ".JPG")) == Ok(Jpeg)
  {
    LowerAppend(stem, ".JPG");
    LowerLiteral(".JPG", ".jpg");
    EndsWithAppend(Lower(stem), ".jpg");
  }

  /** Any file name with a mixed-case ".Png" extension is decoded as PNG. */
  lemma MixedCasePng(stem: string)
    ensures SelectDecoder(PathInput(stem + ".Png")) == Ok(Png)
  {
    LowerAppend(stem, ".Png");
    LowerLiteral(".Png", ".png");
    EndsWithAppend(Lower(stem), ".png");
  }

  /** Only the end of the name counts: an earlier ".jpg" does not make a ".Png" file JPEG. */
  lemma LastExtensionCounts(stem: string)
    ensures SelectDecoder(PathInput(stem + ".jpg" + ".Png")) == Ok(Png)
  {
    MixedCasePng(stem + ".jpg");
  }

  /** A ".gif" file is an unsupported format. */
  lemma GifUnsupported(stem: string)
    ensures SelectDecoder(PathInput(stem + ".gif")) == Err(ValueError(UnsupportedFormat))
  {
    LowerAppend(stem, ".gif");
    LowerLiteral(".gif", ".gif");
    var l := Lower(stem + ".gif");
    assert l[|l| - 1] == 'f';
    LastCharDiffers(l, ".png");
    LastCharDiffers(l, ".jpeg");
    LastCharDiffers(l, ".jpg");
  }

  /** The extension must follow a dot: a file named "png" is an unsupported format. */
  lemma ExtensionNeedsDot()
    ensures SelectDecoder(PathInput("png")) == Err(ValueError(UnsupportedFormat))
  {
    assert |Lower("png")| == 3;
  }

  function Min(a: int, b: int): int { if a <= b then a else b }

  /** `keypoints_with_scores[..., :2]`: every row of the last axis cut to its first two
      entries (a shorter row is kept whole). */
  function KeypointsXY(out: seq<seq<real>>): (r: seq<seq<real>>)
    ensures |r| == |out|
    ensures forall i :: 0 <= i < |r| ==> |r[i]| == Min(2, |out[i]|) && r[i] <= out[i]
  {
    seq(|out|, i requires 0 <= i < |out| => out[i][..Min(2, |out[i]|)])
  }

  /** A row carrying two coordinates and a confidence score keeps the two coordinates. */
  lemma KeypointsXYDropsScore(out: seq<seq<real>>, i: int)
    requires 0 <= i < |out| && |out[i]| == 3
    ensures KeypointsXY(out)[i] == [out[i][0], out[i][1]]
  {
    var row := KeypointsXY(out)[i];
    assert |row| == 2 && row[0] == out[i][0] && row[1] == out[i][1];
  }

  /** Slicing an already sliced output changes nothing. */
  lemma KeypointsXYIdempotent(out: seq<seq<real>>)
    ensures KeypointsXY(KeypointsXY(out)) == KeypointsXY(out)
  {
    var r := KeypointsXY(out);
    forall i | 0 <= i < |r|
      ensures KeypointsXY(r)[i] == r[i]
    {
      assert |KeypointsXY(r)[i]| == |r[i]|;
    }
  }

  /** The module global `loaded_model` of inference.py. */
  class ModelCache {
    var loadedModel: Option<Model>

    /** The module as imported: no model loaded. */
    constructor ()
      ensures loadedModel == None
    {
      loadedModel := None;
    }

    /** `load_model(model_url)`: loads the model at `url` only if none is loaded yet;
        afterwards a model is always loaded. */
    method LoadModel(url: string)
      modifies this
      ensures old(loadedModel).None? ==> loadedModel == Some(ServingDefault(url))
      ensures old(loadedModel).Some? ==> loadedModel == old(loadedModel)
      ensures loadedModel.Some?
    {
      if loadedModel.None? {
        loadedModel := Some(ServingDefault(url));
      }
    }

    /** `preprocess_and_predict(model_url, image)`. The model is loaded first, so even a
        rejected input leaves it loaded. A rejected input raises its `ValueError` and the
        network is not run; an accepted path is read, decoded with the chosen decoder and
        run through the loaded model by `predict` (reading, decoding, padding to 256 x 256,
        casting and inference), whose keypoint rows are cut to two coordinates. */
    method PreprocessAndPredict(url: string, image: ImageInput, predict: (Model, Decoder, string) -> seq<seq<real>>)
      returns (r: Result<seq<seq<real>>, InputError>)
      modifies this
      ensures old(loadedModel).None? ==> loadedModel == Some(ServingDefault(url))
      ensures old(loadedModel).Some? ==> loadedModel == old(loadedModel)
      ensures match SelectDecoder(image)
        case Err(e) => r == Err(e)
        case Ok(decoder) => r == Ok(KeypointsXY(predict(loadedModel.value, decoder, image.path)))
    {
      LoadModel(url);
      var decoder := SelectDecoder(image);
      if decoder.Err? {
        return Err(decoder.error);
      }
      var outputs := predict(loadedModel.value, decoder.value, image.path);
      r := Ok(KeypointsXY(outputs));
    }
  }

  /** A process that loads the model at `first` and later asks for `later` keeps using the
      model at `first`. */
  method FirstModelKept(first: string, later: string) returns (m: Model)
    ensures m == ServingDefault(first)
  {
    var cache := new ModelCache();
    cache.LoadModel(first);
    cache.LoadModel(later);
    m := cache.loadedModel.value;
  }

  /** Two predictions in one process use the model of the first call's URL, whatever URL
      the second call passes. */
  method SecondPredictionUsesFirstModel(first: string, later: string, image: string,
                                        predict: (Model, Decoder, string) -> seq<seq<real>>)
    returns (r1: Result<seq<seq<real>>, InputError>, r2: Result<seq<seq<real>>, InputError>)
    ensures r2 == r1
    ensures SelectDecoder(PathInput(image)).Ok? ==>
      r2 == Ok(KeypointsXY(predict(ServingDefault(first), SelectDecoder(PathInput(image)).value, image)))
  {
    var cache := new ModelCache();
    r1 := cache.PreprocessAndPredict(first, PathInput(image), predict);
    r2 := cache.PreprocessAndPredict(later, PathInput(image), predict);
  }
}
