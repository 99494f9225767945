/** The server process: its configuration, the model registry and the watchdog,
    and the handling of one request (the activity middleware, then the route). */
module Server {
  import opened Wrappers
  import opened Gateway
  import Registry
  import Watchdog

  /** `API_AUTH_KEY`, `HTTP_PORT`, `SERVER_RESTART_TIME` (seconds) and whether
      `AUTO_LOAD_TXT_MODAL` is `"on"`, already read from the environment. */
  datatype Config = Config(apiAuthKey: string, httpPort: int, serverRestartTime: int, autoLoadTxtModel: bool)

  /** The configuration when the environment sets none of the four options. */
  const DefaultConfig: Config := Config("mt_photos_ai_extra", 8060, 300, false)

  class AiServer {
    const config: Config
    const env: Collaborators
    const registry: Registry.ModelRegistry
    const watchdog: Watchdog.RestartWatchdog

    ghost predicate Valid()
      reads this, registry, watchdog
    {
      registry.Valid() && watchdog.Valid() && watchdog.window == config.serverRestartTime
    }

    /** The process at import time: no model loaded, no timer armed. */
    constructor (config: Config, env: Collaborators)
      ensures Valid() && fresh(registry) && fresh(watchdog)
      ensures this.config == config && this.env == env
      ensures forall k :: registry.Slot(k).None? && registry.Builds(k) == 0
      ensures watchdog.State() == Watchdog.Idle
    {
      this.config := config;
      this.env := env;
      registry := new Registry.ModelRegistry();
      watchdog := new Watchdog.RestartWatchdog(config.serverRestartTime);
    }

    /** The startup hook: load the CLIP text model eagerly when configured to. */
    method Startup()
      requires Valid()
      modifies registry
      ensures Valid()
      ensures config.autoLoadTxtModel ==> registry.Slot(Registry.ClipText).Some?
      ensures config.autoLoadTxtModel && old(registry.Slot(Registry.ClipText)).Some? ==>
        registry.Slot(Registry.ClipText) == old(registry.Slot(Registry.ClipText)) &&
        registry.Builds(Registry.ClipText) == old(registry.Builds(Registry.ClipText))
      ensures config.autoLoadTxtModel && old(registry.Slot(Registry.ClipText)).None? ==>
        fresh(registry.Slot(Registry.ClipText).value) && registry.Builds(Registry.ClipText) == 1
      ensures !config.autoLoadTxtModel ==> unchanged(registry)
      ensures forall k :: k != Registry.ClipText ==>
        registry.Slot(k) == old(registry.Slot(k)) && registry.Builds(k) == old(registry.Builds(k))
    {
      registry.Startup(config.autoLoadTxtModel);
    }

    /** One request at time `now`. The middleware re-arms the watchdog for every
        request, whatever the route and whatever the key; then the route runs,
        loading its model on first use, and `/restart_v2` replaces the process.
        A process already replaced answers nothing. */
    method Handle(req: Request, now: int) returns (resp: Response)
      requires Valid()
      modifies registry, watchdog
      ensures Valid()
      ensures old(watchdog.State()).Restarted? ==>
        resp == NoReply && unchanged(registry) && unchanged(watchdog)
      ensures !old(watchdog.State()).Restarted? ==>
        var o := Dispatch(req, config.apiAuthKey, env);
        resp == o.response &&
        watchdog.State() == (if o.restart then Watchdog.Restarted else Watchdog.Armed(now + config.serverRestartTime)) &&
        (o.load.Some? ==> registry.Slot(o.load.value).Some?) &&
        (forall k :: Some(k) != o.load ==>
           registry.Slot(k) == old(registry.Slot(k)) && registry.Builds(k) == old(registry.Builds(k)))
      ensures forall k :: old(registry.Slot(k)).Some? ==>
        registry.Slot(k) == old(registry.Slot(k)) && registry.Builds(k) == old(registry.Builds(k))
    {
      if watchdog.restarted {
        return NoReply;
      }
      watchdog.OnRequest(now);
      var o := Dispatch(req, config.apiAuthKey, env);
      if o.load.Some? {
        registry.Load(o.load.value);
      }
      if o.restart {
        watchdog.RestartProgram(now);
      }
      resp := o.response;
    }
  }
}
