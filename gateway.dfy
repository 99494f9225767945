/** The request gate and the decision logic of the routes: the API-key check,
    then, for the inference routes, decoding, the size bound, the engine call
    and the soft-fail reply. Decoder, engines and number formatting are foreign
    and enter as the functions of a `Collaborators` value. */
module Gateway {
  import opened Wrappers
  import opened Normalizer
  import Registry

  /** Largest width or height `/ocr` accepts, in pixels. */
  const MaxSide: int := 10000
  const OutOfRangeMessage: string := "height or width out of range"
  /** `str(e)` for the `AttributeError` of reading `.shape` on the `None` that
      `cv2.imdecode` returns for bytes it cannot decode. */
  const NoShapeMessage: string := "'NoneType' object has no attribute 'shape'"
  const InvalidKeyDetail: string := "Invalid API key"
  /** The body of the framework's reply to an exception no handler caught. */
  const InternalErrorDetail: string := "Internal Server Error"
  const CheckTitle: string := "mt-photos-ai服务"
  const HelpUrl: string := "https://mtmt.tech/docs/advanced/ocr_api"

  /** A decoded colour image: `img.shape` is `(height, width, 3)`. */
  datatype Image = Image(height: nat, width: nat, pixels: seq<bv8>)

  /** What `np.frombuffer` followed by `cv2.imdecode` gives for an upload: an
      exception, `None` (bytes that are not an image), or an image. */
  datatype DecodeOutcome = DecodeRaised(msg: string) | NotAnImage | Decoded(image: Image)

  /** The foreign collaborators. Each engine returns its raw output or raises
      with a message. `ocr` gives the first element of `rapid_ocr(img)`, which is
      `None` when nothing was detected. */
  datatype Collaborators = Collaborators(
    decode: seq<bv8> -> DecodeOutcome,
    ocr: Image -> Result<Option<seq<Detection>>, string>,
    encodeImage: Option<Image> -> Result<seq<real>, string>,
    encodeText: string -> Result<seq<real>, string>,
    format: Format,
    fixed16: real -> string)

  datatype Request =
    | GetRoot
    | PostCheck(apiKey: string)
    | PostRestart(apiKey: string)
    | PostRestartV2(apiKey: string)
    | PostOcr(apiKey: string, file: seq<bv8>)
    | PostClipImg(apiKey: string, file: seq<bv8>)
    | PostClipTxt(apiKey: string, text: string)

  /** Reply bodies. Every variant but `HttpError` and `NoReply` is sent with
      status 200; `NoReply` is a request whose process was replaced before it
      answered. */
  datatype Response =
    | StatusPage
    | CheckPassed(title: string, help: string)
    | Passed
    | OcrReply(ocr: OcrResult)
    | EmbeddingReply(vector: seq<string>)
    | SoftFail(msg: string)
    | HttpError(status: int, detail: string)
    | NoReply

  /** A reply together with what handling the request did: which model slot it
      asked to load, whether it called an inference engine, and whether it
      restarted the process. */
  datatype Outcome = Outcome(response: Response, load: Option<Registry.Kind>, engineCalled: bool, restart: bool)

  datatype HttpException = HttpException(status: int, detail: string)

  /** `verify_header`: the supplied key passes exactly when it equals the secret. */
  function VerifyHeader(apiKey: string, secret: string): (r: Result<string, HttpException>)
    ensures r.Success? <==> apiKey == secret
    ensures r.Success? ==> r.value == apiKey
    ensures r.Failure? ==> r.error == HttpException(401, InvalidKeyDetail)
  {
    if apiKey != secret then Failure(HttpException(401, InvalidKeyDetail)) else Success(apiKey)
  }

  /** The image handed to the CLIP encoder: `img`, which is `None` when the bytes
      were not an image. */
  function ImageOrNone(d: DecodeOutcome): Option<Image> {
    if d.Decoded? then Some(d.image) else None
  }

  predicate OutOfRange(img: Image) {
    img.width > MaxSide || img.height > MaxSide
  }

  /** A reply of an `/ocr` or `/clip/img` body: a result, or the soft-fail
      shape `{'result': [], 'msg': ...}`, both with status 200. */
  predicate SoftReply(r: Response) {
    r.OcrReply? || r.EmbeddingReply? || r.SoftFail?
  }

  /** `"{:.16f}".format(v)` for each component, in vector order. */
  function RenderEmbedding(vs: seq<real>, fixed16: real -> string): (r: seq<string>)
    ensures |r| == |vs|
    ensures forall i :: 0 <= i < |vs| ==> r[i] == fixed16(vs[i])
    decreases |vs|
  {
    if vs == [] then [] else [fixed16(vs[0])] + RenderEmbedding(vs[1..], fixed16)
  }

  /** The body of `/ocr` after the key check. The OCR model is loaded first; the
      engine runs only on a decoded image no side of which exceeds the bound,
      and every failure becomes a soft-fail reply. */
  function OcrBody(file: seq<bv8>, env: Collaborators): (o: Outcome)
    ensures o.load == Some(Registry.Ocr) && !o.restart
    ensures SoftReply(o.response) && !o.response.EmbeddingReply?
    ensures o.engineCalled <==> env.decode(file).Decoded? && !OutOfRange(env.decode(file).image)
    ensures env.decode(file).DecodeRaised? ==> o.response == SoftFail(env.decode(file).msg)
    ensures env.decode(file).NotAnImage? ==> o.response == SoftFail(NoShapeMessage)
    ensures env.decode(file).Decoded? && OutOfRange(env.decode(file).image) ==>
      o.response == SoftFail(OutOfRangeMessage)
    ensures o.engineCalled ==>
      var out := env.ocr(env.decode(file).image);
      o.response == (if out.Success? then OcrReply(Normalize(out.value, env.format)) else SoftFail(out.error))
    ensures o.response.OcrReply? ==>
      var out := env.ocr(env.decode(file).image);
      out.Success? &&
      (out.value.None? ==> o.response.ocr == Empty()) &&
      (out.value.Some? ==> Represents(o.response.ocr, out.value.value, env.format))
  {
    var load := Some(Registry.Ocr);
    match env.decode(file)
    case DecodeRaised(msg) => Outcome(SoftFail(msg), load, false, false)
    case NotAnImage => Outcome(SoftFail(NoShapeMessage), load, false, false)
    case Decoded(img) =>
      if OutOfRange(img) then Outcome(SoftFail(OutOfRangeMessage), load, false, false)
      else
        match env.ocr(img)
        case Failure(msg) => Outcome(SoftFail(msg), load, true, false)
        case Success(raw) =>
          NormalizeRepresents(raw, env.format);
          Outcome(OcrReply(Normalize(raw, env.format)), load, true, false)
  }

  /** The body of `/clip/img` after the key check. There is no size bound here:
      the encoder runs on whatever the decoder produced, `None` included, unless
      decoding raised; every failure becomes a soft-fail reply. */
  function ClipImgBody(file: seq<bv8>, env: Collaborators): (o: Outcome)
    ensures o.load == Some(Registry.ClipImage) && !o.restart
    ensures SoftReply(o.response) && !o.response.OcrReply?
    ensures o.engineCalled <==> !env.decode(file).DecodeRaised?
    ensures env.decode(file).DecodeRaised? ==> o.response == SoftFail(env.decode(file).msg)
    ensures o.engineCalled ==>
      var out := env.encodeImage(ImageOrNone(env.decode(file)));
      o.response == (if out.Success? then EmbeddingReply(RenderEmbedding(out.value, env.fixed16)) else SoftFail(out.error))
    ensures o.response.EmbeddingReply? ==>
      var out := env.encodeImage(ImageOrNone(env.decode(file)));
      out.Success? && |o.response.vector| == |out.value| &&
      forall i :: 0 <= i < |out.value| ==> o.response.vector[i] == env.fixed16(out.value[i])
  {
    var load := Some(Registry.ClipImage);
    match env.decode(file)
    case DecodeRaised(msg) => Outcome(SoftFail(msg), load, false, false)
    case _ =>
      match env.encodeImage(ImageOrNone(env.decode(file)))
      case Failure(msg) => Outcome(SoftFail(msg), load, true, false)
      case Success(vs) => Outcome(EmbeddingReply(RenderEmbedding(vs, env.fixed16)), load, true, false)
  }

  /** The body of `/clip/txt` after the key check: the encoder always runs, and
      since nothing catches its failure the framework answers 500. */
  function ClipTxtBody(text: string, env: Collaborators): (o: Outcome)
    ensures o.load == Some(Registry.ClipText) && o.engineCalled && !o.restart
    ensures env.encodeText(text).Failure? <==> o.response == HttpError(500, InternalErrorDetail)
    ensures env.encodeText(text).Success? ==>
      o.response.EmbeddingReply? && |o.response.vector| == |env.encodeText(text).value| &&
      forall i :: 0 <= i < |o.response.vector| ==>
        o.response.vector[i] == env.fixed16(env.encodeText(text).value[i])
  {
    match env.encodeText(text)
    case Failure(_) => Outcome(HttpError(500, InternalErrorDetail), Some(Registry.ClipText), true, false)
    case Success(vs) => Outcome(EmbeddingReply(RenderEmbedding(vs, env.fixed16)), Some(Registry.ClipText), true, false)
  }

  /** A route that the key check guards: every route but the status page. */
  predicate Protected(req: Request) {
    !req.GetRoot?
  }

  /** The route table: everything but `/` runs `verify_header` first and rejects
      a wrong key with 401 before the route body does anything. */
  function Dispatch(req: Request, secret: string, env: Collaborators): (o: Outcome)
    ensures !Protected(req) ==> o == Outcome(StatusPage, None, false, false)
    ensures Protected(req) ==> (o.response == HttpError(401, InvalidKeyDetail) <==> req.apiKey != secret)
    ensures Protected(req) && req.apiKey != secret ==> o.load.None? && !o.engineCalled && !o.restart
    ensures o.restart <==> req.PostRestartV2? && req.apiKey == secret
    ensures o.restart ==> o.response == NoReply
    ensures req.PostCheck? && req.apiKey == secret ==> o.response == CheckPassed(CheckTitle, HelpUrl)
    ensures req.PostRestart? && req.apiKey == secret ==> o.response == Passed
    ensures o.engineCalled ==> o.load.Some?
    ensures o.load.Some? <==> (req.PostOcr? || req.PostClipImg? || req.PostClipTxt?) && req.apiKey == secret
    ensures req.PostOcr? && req.apiKey == secret ==> o == OcrBody(req.file, env)
    ensures req.PostClipImg? && req.apiKey == secret ==> o == ClipImgBody(req.file, env)
    ensures req.PostClipTxt? && req.apiKey == secret ==> o == ClipTxtBody(req.text, env)
  {
    if req.GetRoot? then Outcome(StatusPage, None, false, false)
    else
      match VerifyHeader(req.apiKey, secret)
      case Failure(e) => Outcome(HttpError(e.status, e.detail), None, false, false)
      case Success(_) =>
        match req
        case PostCheck(_) => Outcome(CheckPassed(CheckTitle, HelpUrl), None, false, false)
        case PostRestart(_) => Outcome(Passed, None, false, false)
        case PostRestartV2(_) => Outcome(NoReply, None, false, true)
        case PostOcr(_, file) => OcrBody(file, env)
        case PostClipImg(_, file) => ClipImgBody(file, env)
        case PostClipTxt(_, text) => ClipTxtBody(text, env)
  }
}
