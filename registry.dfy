/** The lazy model registry: one slot per model kind (the globals `rapid_ocr`,
    `clip_img_model` and `clip_txt_model`), filled on first demand and never
    replaced. */
module Registry {
  import opened Wrappers

  /** The three model kinds the server loads. */
  datatype Kind = Ocr | ClipImage | ClipText

  /** A loaded model instance. Its construction (`RapidOCR()`,
      `clip.load_img_model()`, `clip.load_txt_model()`) is foreign; only its
      identity and kind are modelled. */
  class Engine {
    const kind: Kind

    constructor (kind: Kind)
      ensures this.kind == kind
    {
      this.kind := kind;
    }
  }

  /** A slot is well formed when it has been constructed exactly as often as it
      is filled (never more than once) and holds a model of its own kind. */
  predicate SlotOk(slot: Option<Engine>, builds: nat, k: Kind) {
    (slot.None? <==> builds == 0) && builds <= 1 && (slot.Some? ==> slot.value.kind == k)
  }

  class ModelRegistry {
    var ocr: Option<Engine>
    var clipImg: Option<Engine>
    var clipTxt: Option<Engine>
    /** How many times each kind's foreign constructor has run. */
    var ocrBuilds: nat
    var clipImgBuilds: nat
    var clipTxtBuilds: nat

    ghost predicate Valid()
      reads this
    {
      SlotOk(ocr, ocrBuilds, Ocr) &&
      SlotOk(clipImg, clipImgBuilds, ClipImage) &&
      SlotOk(clipTxt, clipTxtBuilds, ClipText)
    }

    /** The slot of kind `k`. */
    function Slot(k: Kind): Option<Engine>
      reads this
    {
      match k
      case Ocr => ocr
      case ClipImage => clipImg
      case ClipText => clipTxt
    }

    /** How many times the model of kind `k` has been constructed. */
    function Builds(k: Kind): nat
      reads this
    {
      match k
      case Ocr => ocrBuilds
      case ClipImage => clipImgBuilds
      case ClipText => clipTxtBuilds
    }

    /** In a well-formed registry every kind has been constructed at most once,
        and exactly once when its slot is filled. */
    lemma BuiltAtMostOnce(k: Kind)
      requires Valid()
      ensures Builds(k) <= 1
      ensures Slot(k).Some? <==> Builds(k) == 1
      ensures Slot(k).Some? ==> Slot(k).value.kind == k
    {
    }

    /** At import time every slot is `None`. */
    constructor ()
      ensures Valid()
      ensures forall k :: Slot(k).None? && Builds(k) == 0
    {
      ocr, clipImg, clipTxt := None, None, None;
      ocrBuilds, clipImgBuilds, clipTxtBuilds := 0, 0, 0;
    }

    /** `load_ocr_model`, `load_clip_img_model`, `load_clip_txt_model`: construct
        the model of kind `k` if its slot is empty, otherwise do nothing. */
    method Load(k: Kind)
      requires Valid()
      modifies this
      ensures Valid()
      ensures Slot(k).Some?
      ensures old(Slot(k)).Some? ==> Slot(k) == old(Slot(k)) && Builds(k) == old(Builds(k))
      ensures old(Slot(k)).None? ==> fresh(Slot(k).value) && Builds(k) == old(Builds(k)) + 1
      ensures forall j :: j != k ==> Slot(j) == old(Slot(j)) && Builds(j) == old(Builds(j))
    {
      match k
      case Ocr =>
        if ocr.None? {
          var e := new Engine(Ocr);
          ocr := Some(e);
          ocrBuilds := ocrBuilds + 1;
        }
      case ClipImage =>
        if clipImg.None? {
          var e := new Engine(ClipImage);
          clipImg := Some(e);
          clipImgBuilds := clipImgBuilds + 1;
        }
      case ClipText =>
        if clipTxt.None? {
          var e := new Engine(ClipText);
          clipTxt := Some(e);
          clipTxtBuilds := clipTxtBuilds + 1;
        }
    }

    /** `startup_event`: load the text model eagerly when the flag is on. */
    method Startup(autoLoadTxtModel: bool)
      requires Valid()
      modifies this
      ensures Valid()
      ensures autoLoadTxtModel ==> Slot(ClipText).Some?
      ensures autoLoadTxtModel && old(Slot(ClipText)).Some? ==>
        Slot(ClipText) == old(Slot(ClipText)) && Builds(ClipText) == old(Builds(ClipText))
      ensures autoLoadTxtModel && old(Slot(ClipText)).None? ==>
        fresh(Slot(ClipText).value) && Builds(ClipText) == 1
      ensures !autoLoadTxtModel ==> unchanged(this)
      ensures forall j :: j != ClipText ==> Slot(j) == old(Slot(j)) && Builds(j) == old(Builds(j))
    {
      if autoLoadTxtModel {
        Load(ClipText);
      }
    }
  }
}
