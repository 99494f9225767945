# mt-photos-ai OpenVINO server: a Dafny model of its serving shell

This project models the logic of `openvino/server.py`, the HTTP server of mt-photos-ai.
It serves OCR and CLIP embeddings to the MT Photos client. The inference itself is foreign.
The model covers what the server does around it:

- **Normalizer** (`normalizer.dfy`): `trans_result` turns raw OCR detections `(quadrilateral, text, score)`
  into three index-aligned sequences `texts`, `scores` and `boxes`.
  It is modelled twice: as the loop the server runs (`TransResult`) and as a function (`Normalize`).
  Both are proved to satisfy the same row-by-row specification (`Represents`), which determines the result uniquely.
- **Registry** (`registry.dfy`): the three lazily filled model slots `rapid_ocr`, `clip_img_model` and `clip_txt_model`.
  There is one `Load` per kind and the eager text-model hook `startup_event`.
  A per-kind construction counter makes "constructed at most once" a class invariant.
- **Gateway** (`gateway.dfy`): `verify_header` and the decisions of every route body.
  These cover the key check, decoding, the 10000-pixel bound on `/ocr`, the engine call and the soft-fail reply.
  Each route yields the reply plus what it did: which model it loaded, whether an engine ran, whether the process restarts.
- **Watchdog** (`watchdog.dfy`): the idle-restart timer of the `check_activity` middleware.
  It is an abstract state machine (`Idle`, `Armed(deadline)`, `Restarted`) with lemmas over request traces.
  A class keeps every `threading.Timer` it created and proves that at most one is pending at any time.
- **Server** (`server.dfy`): the configuration and one `AiServer` process combining registry and watchdog.
  `Handle` re-arms the watchdog, dispatches the request, loads the route's model and restarts on `/restart_v2`.

Foreign collaborators are parameters, gathered in `Gateway.Collaborators`: the decoder (`np.frombuffer` + `cv2.imdecode`), the OCR engine,
the two CLIP encoders, and the number formats (`str(round(x, 2))`, `:.2f`, `:.16f`).
Each engine either returns its output or raises with a message.
Time enters as an integer `now` passed to each step. The timer thread waking up is the `WakeTimer` step.

The model follows the code, which differs from what a reader might expect:

- `/clip/img` has no size bound: the CLIP encoder runs on images of any size (`openvino/server.py:156-168`).
- On `/clip/img`, bytes that do not decode give `None`, and `None` is passed to the encoder; `/ocr` instead fails on `img.shape`.
- `/restart_v2` calls `restart_program`, and its `os.execl` replaces the process, so the `{'result': 'pass'}` after it is never sent (`NoReply`).
- A failing text encoder on `/clip/txt` is not caught, so the framework answers with status 500.
- A replaced process starts with no timer armed (`Idle`). The first request arms one.
- The middleware re-arms the watchdog for every request, including the unauthenticated `/` page and requests with a wrong key.

## Model

| member | source | states |
|---|---|---|
| `Normalizer.TransResult` | openvino/server.py:78-95 | `None` gives three empty sequences; otherwise the result has one row per detection, in input order, built from that detection alone; and the loop equals `Normalize` |
| `Normalizer.RowsRepresent` | openvino/server.py:84-95 | appending one row per detection gives `texts`, `scores`, `boxes` all of length n, row i taken from detection i: its text, its score, and box `x = p0.x`, `y = p0.y`, `width = p1.x - p0.x`, `height = p2.y - p0.y` |
| `Normalizer.AppendRowRepresents` | openvino/server.py:85-94 | one loop iteration appends exactly the row of the current detection and keeps the earlier rows |
| `Normalizer.NormalizeRepresents` | openvino/server.py:78-95 | `trans_result` never fails: `None` normalises to three empty sequences, a list to aligned rows |
| `Normalizer.RepresentsUnique` | openvino/server.py:78-95 | the row-by-row specification determines the normalised result completely |
| `Registry.ModelRegistry.constructor` | openvino/server.py:25-27 | at import time every slot is empty and nothing has been constructed |
| `Registry.ModelRegistry.Load` | openvino/server.py:32-45 | after loading kind k its slot is filled; a filled slot keeps its instance and nothing is constructed; an empty one gets a fresh instance and its count goes to one; other kinds are untouched |
| `Registry.ModelRegistry.BuiltAtMostOnce` | openvino/server.py:32-45 | in every reachable registry each kind has been constructed at most once, and exactly once when its slot is filled |
| `Registry.ModelRegistry.Startup` | openvino/server.py:48-51 | with the flag on, the text model is loaded: an empty slot gets a fresh instance built once, a filled one keeps its instance and count; with the flag off, nothing changes; the other kinds are never touched |
| `Watchdog.RestartWatchdog.constructor` | openvino/server.py:24 | a new process has no timer (`Idle`) |
| `Watchdog.RestartWatchdog.OnRequest` | openvino/server.py:54-62 | the previous timer is cancelled and exactly one new pending timer is armed at `now + window`; only the newest timer stays pending |
| `Watchdog.RestartWatchdog.PendingTimers` | openvino/server.py:56-62 | at most one timer is pending at any moment |
| `Watchdog.RestartWatchdog.WakeTimer` | openvino/server.py:61-62 | the pending timer restarts the process exactly when its deadline has passed, and cancelled timers never do |
| `Watchdog.RestartWatchdog.RestartProgram` | openvino/server.py:181-183 | calling `restart_program` always moves to the terminal `Restarted` state |
| `Watchdog.BusyStaysArmed` | openvino/server.py:56-62 | while every timer wake-up comes less than a window after some request, the watchdog is armed a window after the last request |
| `Watchdog.NoRestartWhileBusy` | openvino/server.py:56-62 | while every timer wake-up comes less than a window after some request, and nothing forces a restart, no restart happens |
| `Watchdog.IdleWindowRestarts` | openvino/server.py:61-62 | a wake-up a full window after the last request restarts the process |
| `Watchdog.RestartIsFinal` | openvino/server.py:181-183 | once restarted, no later event leaves `Restarted`, so each idle window restarts at most once |
| `Watchdog.ForcedRestart` | openvino/server.py:131-135 | `/restart_v2` restarts from any state |
| `Gateway.VerifyHeader` | openvino/server.py:67-71 | the key passes exactly when it equals the secret; otherwise it fails with 401 "Invalid API key" |
| `Gateway.RenderEmbedding` | openvino/server.py:165 | one 16-decimal string per vector component, in vector order |
| `Gateway.OcrBody` | openvino/server.py:137-154 | loads the OCR model first; the reply is always a result or a soft fail; the engine runs exactly when decoding gave an image within 10000 x 10000; a decode exception, an undecodable file, an oversized image and an engine error each give `{'result': [], 'msg': ...}` with the matching message; success gives the aligned normalised rows |
| `Gateway.ClipImgBody` | openvino/server.py:156-168 | loads the CLIP image model; the encoder runs unless decoding raised, whatever the image size; its failure is a soft fail, its success one 16-decimal string per component |
| `Gateway.ClipTxtBody` | openvino/server.py:170-176 | loads the CLIP text model and always runs the encoder; its failure is status 500, with no soft-fail path |
| `Gateway.Dispatch` | openvino/server.py:116-176 | `/` needs no key; every other route answers 401 exactly when the key is wrong, and then loads nothing, runs no engine and does not restart; `/check` and `/restart` answer pass without restarting; only `/restart_v2` with the right key restarts; only the three inference routes load a model, and with the right key `/ocr`, `/clip/img` and `/clip/txt` run exactly `OcrBody`, `ClipImgBody` and `ClipTxtBody` |
| `Server.AiServer.constructor` | openvino/server.py:24-27 | the process starts with no model loaded and no timer armed |
| `Server.AiServer.Startup` | openvino/server.py:48-51 | the startup hook loads the CLIP text model exactly when configured to, keeping an instance that is already loaded and building a fresh one otherwise |
| `Server.AiServer.Handle` | openvino/server.py:54-65 | every request re-arms the watchdog a window ahead, unless it restarts the process; the reply is the route's; only the route's model may be loaded, and a loaded model is never replaced or rebuilt |

## Left out

- HTTP routing, `Header`/`File`/`Depends` plumbing and request validation (a missing `api_key` header, file or `text` field gets status 422 from the framework before any route code runs). Requests are modelled with all parts present.
- The HTML status page at `/`: it is modelled as an unauthenticated route with an opaque reply; its markup is not.
- Image decoding, the OCR engine and the CLIP models are foreign. Only their result or their exception message is modelled. Construction of a model is assumed to succeed.
- Floating point: coordinates and scores are reals, and box width and height are exact real subtractions. The three number formats are uninterpreted, so digit counts are not proved.
- `Normalizer.TransResult`: a detection box is modelled as exactly four corners. A malformed box that would make `trans_result` raise is not representable.
- Concurrency: the timer thread and the event loop are modelled as one sequence of steps. A timer whose wake-up is overtaken by a request is a request step before the wake-up step. The mutual exclusion of engine calls is not modelled; each call is one atomic step.
- `os.execl` is the terminal `Restarted` state. The successor process is a new `AiServer`.
- The `predict` helper (`openvino/server.py:178-179`) is never called and is not modelled.
- Reading `.env` and the environment and parsing the integers: the configuration enters as a `Config` value.
- `print` of caught exceptions and the `del` statements have no observable effect on replies and are not modelled.
