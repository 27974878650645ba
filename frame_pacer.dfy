/** The frame pacer's settings and the decisions made from them: whether the render
    frame-rate limit actually applies, and the logic time-scale rate in effect.

    The engine singletons the decisions consult (tactical view, script engine, game
    logic, global data, network) are a `World` value. */
module FramePacing {
  import FrameRateLimit
  import opened Wrappers

  /** `BaseFps`. */
  const BaseFps: int := 30
  /** `LOGICFRAMES_PER_SECOND`. */
  const LogicFramesPerSecond: int := 30

  datatype ViewState = ViewState(timeMultiplier: int, scriptTimeFast: bool)
  datatype LogicState = LogicState(paused: bool, inReplay: bool)

  /** What the decisions read from the rest of the engine; an absent singleton is
      `None`. */
  datatype World = World(
    view: Option<ViewState>,
    logic: Option<LogicState>,
    tivoFastMode: bool,
    useFpsLimit: bool,
    networkFrameRate: Option<int>)

  /** `LogicTimeQueryFlags`, an unsigned bit mask. */
  type QueryFlags = bv32
  const IgnoreFrozenTime: QueryFlags := 1
  const IgnoreHaltedGame: QueryFlags := 2

  predicate Has(flags: QueryFlags, bit: QueryFlags)
  {
    flags & bit != 0
  }

  /** A view that plays faster than real time, or fast script time, switches the limit off. */
  predicate ViewAllowsLimit(w: World)
  {
    w.view.None? || (w.view.value.timeMultiplier <= 1 && !w.view.value.scriptTimeFast)
  }

  /** Fast-forwarding an unpaused replay switches the limit off. */
  predicate LogicAllowsLimit(w: World)
  {
    w.logic.None? || !(!w.logic.value.paused && w.tivoFastMode && w.logic.value.inReplay)
  }

  class FramePacer {
    var maxFps: int
    var logicTimeScaleFps: int
    var enableFpsLimit: bool
    var enableLogicTimeScale: bool
    var isTimeFrozen: bool
    var isGameHalted: bool

    /** The base rate as the limit, the logic rate as the time scale, every switch off. */
    constructor ()
      ensures maxFps == BaseFps && logicTimeScaleFps == LogicFramesPerSecond
      ensures !enableFpsLimit && !enableLogicTimeScale && !isTimeFrozen && !isGameHalted
    {
      maxFps := BaseFps;
      logicTimeScaleFps := LogicFramesPerSecond;
      enableFpsLimit := false;
      enableLogicTimeScale := false;
      isTimeFrozen := false;
      isGameHalted := false;
    }

    function GetFramesPerSecondLimit(): int reads this { maxFps }
    function IsFramesPerSecondLimitEnabled(): bool reads this { enableFpsLimit }
    function GetLogicTimeScaleFps(): int reads this { logicTimeScaleFps }
    function IsLogicTimeScaleEnabled(): bool reads this { enableLogicTimeScale }
    function IsTimeFrozen(): bool reads this { isTimeFrozen }
    function IsGameHalted(): bool reads this { isGameHalted }

    method SetFramesPerSecondLimit(fps: int)
      modifies this
      ensures GetFramesPerSecondLimit() == fps
      ensures logicTimeScaleFps == old(logicTimeScaleFps) && enableFpsLimit == old(enableFpsLimit)
      ensures enableLogicTimeScale == old(enableLogicTimeScale)
      ensures isTimeFrozen == old(isTimeFrozen) && isGameHalted == old(isGameHalted)
    {
      maxFps := fps;
    }

    method EnableFramesPerSecondLimit(enable: bool)
      modifies this
      ensures IsFramesPerSecondLimitEnabled() == enable
      ensures maxFps == old(maxFps) && logicTimeScaleFps == old(logicTimeScaleFps)
      ensures enableLogicTimeScale == old(enableLogicTimeScale)
      ensures isTimeFrozen == old(isTimeFrozen) && isGameHalted == old(isGameHalted)
    {
      enableFpsLimit := enable;
    }

    method SetLogicTimeScaleFps(fps: int)
      modifies this
      ensures GetLogicTimeScaleFps() == fps
      ensures maxFps == old(maxFps) && enableFpsLimit == old(enableFpsLimit)
      ensures enableLogicTimeScale == old(enableLogicTimeScale)
      ensures isTimeFrozen == old(isTimeFrozen) && isGameHalted == old(isGameHalted)
    {
      logicTimeScaleFps := fps;
    }

    method EnableLogicTimeScale(enable: bool)
      modifies this
      ensures IsLogicTimeScaleEnabled() == enable
      ensures maxFps == old(maxFps) && logicTimeScaleFps == old(logicTimeScaleFps)
      ensures enableFpsLimit == old(enableFpsLimit)
      ensures isTimeFrozen == old(isTimeFrozen) && isGameHalted == old(isGameHalted)
    {
      enableLogicTimeScale := enable;
    }

    method SetTimeFrozen(frozen: bool)
      modifies this
      ensures IsTimeFrozen() == frozen
      ensures maxFps == old(maxFps) && logicTimeScaleFps == old(logicTimeScaleFps)
      ensures enableFpsLimit == old(enableFpsLimit) && enableLogicTimeScale == old(enableLogicTimeScale)
      ensures isGameHalted == old(isGameHalted)
    {
      isTimeFrozen := frozen;
    }

    method SetGameHalted(halted: bool)
      modifies this
      ensures IsGameHalted() == halted
      ensures maxFps == old(maxFps) && logicTimeScaleFps == old(logicTimeScaleFps)
      ensures enableFpsLimit == old(enableFpsLimit) && enableLogicTimeScale == old(enableLogicTimeScale)
      ensures isTimeFrozen == old(isTimeFrozen)
    {
      isGameHalted := halted;
    }

    /** `isActualFramesPerSecondLimitEnabled`: the limit applies only when it is switched
      on here and globally, and nothing is running the game faster than real time. */
    function IsActualFramesPerSecondLimitEnabled(w: World): (r: bool)
      reads this
      ensures r ==> w.useFpsLimit && enableFpsLimit
      ensures w.view.Some? && (w.view.value.timeMultiplier > 1 || w.view.value.scriptTimeFast) ==> !r
      ensures w.logic.Some? && !w.logic.value.paused && w.tivoFastMode && w.logic.value.inReplay ==> !r
      ensures r <==> w.useFpsLimit && enableFpsLimit && ViewAllowsLimit(w) && LogicAllowsLimit(w)
    {
      var allow := true;
      var allow := if w.view.Some? then allow && w.view.value.timeMultiplier <= 1 && !w.view.value.scriptTimeFast else allow;
      var allow := if w.logic.Some? then allow && !(!w.logic.value.paused && w.tivoFastMode && w.logic.value.inReplay) else allow;
      allow && w.useFpsLimit && IsFramesPerSecondLimitEnabled()
    }

    /** `getActualFramesPerSecondLimit`: the configured limit when it applies, uncapped
      otherwise. */
    function GetActualFramesPerSecondLimit(w: World): (r: int)
      reads this
      ensures IsActualFramesPerSecondLimitEnabled(w) ==> r == maxFps
      ensures !IsActualFramesPerSecondLimitEnabled(w) ==> r == FrameRateLimit.UncappedFpsValue
      ensures !w.useFpsLimit || !enableFpsLimit ==> r == FrameRateLimit.UncappedFpsValue
    {
      if IsActualFramesPerSecondLimitEnabled(w) then GetFramesPerSecondLimit() else FrameRateLimit.UncappedFpsValue
    }

    /** `getActualLogicTimeScaleFps`: 0 while time is frozen or the game halted (unless
      the caller ignores that), then the network's rate, then the time scale when
      enabled, and uncapped otherwise. */
    function GetActualLogicTimeScaleFps(flags: QueryFlags, w: World): (r: int)
      reads this
      ensures isTimeFrozen && !Has(flags, IgnoreFrozenTime) ==> r == 0
      ensures isGameHalted && !Has(flags, IgnoreHaltedGame) ==> r == 0
      ensures (isTimeFrozen ==> Has(flags, IgnoreFrozenTime)) && (isGameHalted ==> Has(flags, IgnoreHaltedGame)) ==>
        r == (if w.networkFrameRate.Some? then w.networkFrameRate.value
              else if enableLogicTimeScale then logicTimeScaleFps
              else FrameRateLimit.UncappedFpsValue)
    {
      if IsTimeFrozen() && !Has(flags, IgnoreFrozenTime) then 0
      else if IsGameHalted() && !Has(flags, IgnoreHaltedGame) then 0
      else if w.networkFrameRate.Some? then w.networkFrameRate.value
      else if IsLogicTimeScaleEnabled() then GetLogicTimeScaleFps()
      else FrameRateLimit.UncappedFpsValue
    }
  }
}
