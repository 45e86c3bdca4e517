/** The inline gate functions of the extensible scheduler class header.
    The kernel configuration is a value: whether the class is compiled in
    (`CONFIG_SCHED_CLASS_EXT`) and whether the kernel is SMP. The run-time
    switch `scx_enabled()` is a boolean input. The out-of-line functions
    the header only declares are not modelled: a call to one is an event,
    and the value it would return is an input. */
module SchedExt {

  datatype Config = Config(classExt: bool, smp: bool)

  /** `u32`, the type of a performance target. */
  type U32 = x: int | 0 <= x < 0x1_0000_0000

  /** The hooks that are empty inline stubs when the class is compiled out
      and out-of-line calls when it is compiled in. */
  datatype Hook =
    | Tick
    | PreFork
    | PostFork
    | CancelFork
    | RqActivate
    | RqDeactivate
    | InitClass

  datatype Event =
    | OutOfLine(hook: Hook)
    | UpdateIdle(cpu: int, idle: bool)

  /** `scx_cpuperf_target(cpu)`: the run queue's performance target while
      the class is enabled, and 0 otherwise; always 0 when the class is
      compiled out. `rqTarget` is `cpu_rq(cpu)->scx.cpuperf_target`. */
  function CpuperfTarget(cfg: Config, enabled: bool, rqTarget: U32): (r: U32)
    ensures r == 0 || r == rqTarget
    ensures r != 0 ==> cfg.classExt && enabled
    ensures r == rqTarget <==> (cfg.classExt && enabled) || rqTarget == 0
  {
    if cfg.classExt && enabled then rqTarget else 0
  }

  /** `task_on_scx(p)`: the task runs in the extensible class. It holds
      exactly when the class is compiled in and enabled and the task's
      scheduling class is `ext_sched_class`. */
  predicate TaskOnScx(cfg: Config, enabled: bool, classIsExt: bool) {
    cfg.classExt && enabled && classIsExt
  }

  /** `scx_update_idle(rq, idle)`: forwards to `__scx_update_idle` when
      the class is compiled in on an SMP kernel and enabled; otherwise it
      does nothing. */
  function ScxUpdateIdle(cfg: Config, enabled: bool, cpu: int, idle: bool): (r: seq<Event>)
    ensures |r| <= 1
    ensures forall e :: e in r ==> e == UpdateIdle(cpu, idle)
    ensures r != [] <==> cfg.classExt && cfg.smp && enabled
  {
    if cfg.classExt && cfg.smp then
      if enabled then [UpdateIdle(cpu, idle)] else []
    else []
  }

  /** A void hook: an out-of-line call when compiled in, an empty stub
      otherwise. */
  function CallHook(cfg: Config, h: Hook): (r: seq<Event>)
    ensures |r| <= 1 && forall e :: e in r ==> e == OutOfLine(h)
    ensures r != [] <==> cfg.classExt
  {
    if cfg.classExt then [OutOfLine(h)] else []
  }

  /** The hooks that return an error code: 0 from the inline stub when the
      class is compiled out, the out-of-line result when it is compiled in. */
  datatype ResultHook =
    | Fork                 // `scx_fork(p)`
    | CheckSetscheduler    // `scx_check_setscheduler(p, policy)`

  /** A hook that returns an error code: compiled out it always succeeds,
      compiled in it fails exactly when the out-of-line call fails. */
  function CallResultHook(cfg: Config, h: ResultHook, result: int): (r: int)
    ensures !cfg.classExt ==> r == 0
    ensures cfg.classExt ==> r == result
    ensures r != 0 ==> cfg.classExt && result != 0
  {
    if cfg.classExt then result else 0
  }

  /** `scx_can_stop_tick(rq)`: the out-of-line answer when compiled in,
      else true. */
  function ScxCanStopTick(cfg: Config, canStop: bool): (r: bool)
    ensures !r ==> cfg.classExt && !canStop
    ensures r <==> !cfg.classExt || canStop
  {
    if cfg.classExt then canStop else true
  }

  /** A task is only ever on the extensible class while it is enabled, and
      a nonzero performance target is only ever read while it is enabled. */
  lemma GatesNeedEnabled(cfg: Config, enabled: bool, classIsExt: bool, rqTarget: U32)
    ensures TaskOnScx(cfg, enabled, classIsExt) ==> cfg.classExt && enabled
    ensures CpuperfTarget(cfg, enabled, rqTarget) != 0 ==> cfg.classExt && enabled
    ensures TaskOnScx(cfg, enabled, classIsExt) <==> cfg.classExt && enabled && classIsExt
  {
  }

  /** With the class compiled out every gate gives the neutral answer,
      whatever the run-time switch and the inputs say: no hook runs, fork
      and setscheduler checks succeed, the tick may stop, no target, no
      task on the class, no idle update. */
  lemma CompiledOutIsNeutral(cfg: Config, enabled: bool, classIsExt: bool, rqTarget: U32,
                             h: Hook, rh: ResultHook, result: int, canStop: bool, cpu: int, idle: bool)
    requires !cfg.classExt
    ensures CallHook(cfg, h) == []
    ensures CallResultHook(cfg, rh, result) == 0
    ensures ScxCanStopTick(cfg, canStop)
    ensures CpuperfTarget(cfg, enabled, rqTarget) == 0
    ensures !TaskOnScx(cfg, enabled, classIsExt)
    ensures ScxUpdateIdle(cfg, enabled, cpu, idle) == []
  {
  }

  /** With the class compiled in every gate defers to the class: each hook
      is one out-of-line call, the error code and the tick answer are the
      class's own, and while enabled the target and the idle update (on
      SMP) pass through unchanged. */
  lemma CompiledInDefersToClass(cfg: Config, enabled: bool, rqTarget: U32, h: Hook,
                                rh: ResultHook, result: int, canStop: bool, cpu: int, idle: bool)
    requires cfg.classExt
    ensures CallHook(cfg, h) == [OutOfLine(h)]
    ensures CallResultHook(cfg, rh, result) == result
    ensures ScxCanStopTick(cfg, canStop) == canStop
    ensures enabled ==> CpuperfTarget(cfg, enabled, rqTarget) == rqTarget
    ensures enabled && cfg.smp ==> ScxUpdateIdle(cfg, enabled, cpu, idle) == [UpdateIdle(cpu, idle)]
  {
  }

  /** Without SMP the idle update is a no-op whether or not the class is
      enabled. */
  lemma NoSmpNoIdleUpdate(cfg: Config, enabled: bool, cpu: int, idle: bool)
    requires !cfg.smp
    ensures ScxUpdateIdle(cfg, enabled, cpu, idle) == []
  {
  }
}
