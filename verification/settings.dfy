/** The switcher's configuration: the built-in defaults, the shallow merge
    of the user's JSON object over them, and the clamping of the interval
    and the worker-pool size (`load_config`, dns.py). */
module Settings {
  import opened Options

  datatype DashboardConfig = DashboardConfig(enabled: bool, host: string, port: int, refreshS: int)

  /** One field per key of the default configuration object. */
  datatype Config = Config(
    interval: int,
    threads: int,
    pingCount: int,
    pingTimeoutMs: int,
    useIpv6: bool,
    autoDisableIpv6: bool,
    dashboard: DashboardConfig,
    fallbackDns: seq<string>,
    autoRestartAdapter: bool,
    gamePause: bool,
    gameCacheSeconds: int,
    dnsUpdateUrl: string,
    customDns: seq<string>,
    games: seq<string>,
    clearTerminal: bool,
    maxTerminalLines: int)

  /** The keys a user's configuration file sets; `None` where it is silent. */
  datatype UserConfig = UserConfig(
    interval: Option<int>,
    threads: Option<int>,
    pingCount: Option<int>,
    pingTimeoutMs: Option<int>,
    useIpv6: Option<bool>,
    autoDisableIpv6: Option<bool>,
    dashboard: Option<DashboardConfig>,
    fallbackDns: Option<seq<string>>,
    autoRestartAdapter: Option<bool>,
    gamePause: Option<bool>,
    gameCacheSeconds: Option<int>,
    dnsUpdateUrl: Option<string>,
    customDns: Option<seq<string>>,
    games: Option<seq<string>>,
    clearTerminal: Option<bool>,
    maxTerminalLines: Option<int>)

  const MinInterval := 30
  const MinThreads := 1
  const MaxThreads := 50

  const DefaultFallback: seq<string> := ["8.8.8.8", "1.1.1.1", "9.9.9.9"]

  const Defaults := Config(
    interval := 60,
    threads := 10,
    pingCount := 3,
    pingTimeoutMs := 1000,
    useIpv6 := true,
    autoDisableIpv6 := true,
    dashboard := DashboardConfig(true, "0.0.0.0", 8080, 5),
    fallbackDns := DefaultFallback,
    autoRestartAdapter := true,
    gamePause := true,
    gameCacheSeconds := 5,
    dnsUpdateUrl := "",
    customDns := [],
    games := [],
    clearTerminal := true,
    maxTerminalLines := 100)

  const NoOverrides := UserConfig(None, None, None, None, None, None, None, None,
                                  None, None, None, None, None, None, None, None)

  /** `cfg.update(user)`: each key the user sets replaces the default
      value wholesale (the dashboard object included); the rest keep their
      defaults. */
  function Merge(base: Config, user: UserConfig): Config {
    Config(
      interval := user.interval.GetOr(base.interval),
      threads := user.threads.GetOr(base.threads),
      pingCount := user.pingCount.GetOr(base.pingCount),
      pingTimeoutMs := user.pingTimeoutMs.GetOr(base.pingTimeoutMs),
      useIpv6 := user.useIpv6.GetOr(base.useIpv6),
      autoDisableIpv6 := user.autoDisableIpv6.GetOr(base.autoDisableIpv6),
      dashboard := user.dashboard.GetOr(base.dashboard),
      fallbackDns := user.fallbackDns.GetOr(base.fallbackDns),
      autoRestartAdapter := user.autoRestartAdapter.GetOr(base.autoRestartAdapter),
      gamePause := user.gamePause.GetOr(base.gamePause),
      gameCacheSeconds := user.gameCacheSeconds.GetOr(base.gameCacheSeconds),
      dnsUpdateUrl := user.dnsUpdateUrl.GetOr(base.dnsUpdateUrl),
      customDns := user.customDns.GetOr(base.customDns),
      games := user.games.GetOr(base.games),
      clearTerminal := user.clearTerminal.GetOr(base.clearTerminal),
      maxTerminalLines := user.maxTerminalLines.GetOr(base.maxTerminalLines))
  }

  predicate Valid(c: Config) {
    c.interval >= MinInterval && MinThreads <= c.threads <= MaxThreads
  }

  /** The validation step: the interval is raised to at least 30 seconds and
      the pool size is clamped into 1..50. A value already in range is kept
      and every other key is untouched. */
  function Validate(c: Config): (r: Config)
    ensures Valid(r)
    ensures c.interval >= MinInterval ==> r.interval == c.interval
    ensures c.interval < MinInterval ==> r.interval == MinInterval
    ensures MinThreads <= c.threads <= MaxThreads ==> r.threads == c.threads
    ensures c.threads < MinThreads ==> r.threads == MinThreads
    ensures c.threads > MaxThreads ==> r.threads == MaxThreads
    ensures r == c.(interval := r.interval, threads := r.threads)
  {
    var c1 := if c.interval < MinInterval then c.(interval := MinInterval) else c;
    var c2 := if c1.threads < MinThreads then c1.(threads := MinThreads) else c1;
    if c2.threads > MaxThreads then c2.(threads := MaxThreads) else c2
  }

  /** `load_config`: the file's object merged over the defaults, then
      validated. `None` stands for a missing or unreadable file, which
      leaves the defaults in place. */
  function LoadConfig(file: Option<UserConfig>): (r: Config)
    ensures Valid(r)
    ensures file.None? ==> r == Defaults
  {
    Validate(Merge(Defaults, file.GetOr(NoOverrides)))
  }

  /** Validation changes nothing in a configuration that is already valid,
      so applying it twice is the same as applying it once. */
  lemma ValidateIdempotent(c: Config)
    ensures Valid(c) ==> Validate(c) == c
    ensures Validate(Validate(c)) == Validate(c)
  {
  }

  /** One key of the loaded configuration: the user's value when the file
      sets the key, and the default otherwise. */
  predicate KeyLoaded<T(==)>(user: Option<T>, loaded: T, default: T) {
    (user.Some? ==> loaded == user.value) && (user.None? ==> loaded == default)
  }

  /** Every key the user sets comes through verbatim and every key the user
      leaves out keeps its default, except that an interval below 30 is
      raised to 30 and a pool size outside 1..50 is clamped into it. */
  lemma LoadKeepsUserValues(user: UserConfig)
    ensures var r := LoadConfig(Some(user));
      && (user.interval.None? || user.interval.value >= MinInterval ==> KeyLoaded(user.interval, r.interval, Defaults.interval))
      && (user.interval.Some? && user.interval.value < MinInterval ==> r.interval == MinInterval)
      && (user.threads.None? || MinThreads <= user.threads.value <= MaxThreads ==> KeyLoaded(user.threads, r.threads, Defaults.threads))
      && (user.threads.Some? && user.threads.value < MinThreads ==> r.threads == MinThreads)
      && (user.threads.Some? && user.threads.value > MaxThreads ==> r.threads == MaxThreads)
      && KeyLoaded(user.pingCount, r.pingCount, Defaults.pingCount)
      && KeyLoaded(user.pingTimeoutMs, r.pingTimeoutMs, Defaults.pingTimeoutMs)
      && KeyLoaded(user.useIpv6, r.useIpv6, Defaults.useIpv6)
      && KeyLoaded(user.autoDisableIpv6, r.autoDisableIpv6, Defaults.autoDisableIpv6)
      && KeyLoaded(user.dashboard, r.dashboard, Defaults.dashboard)
      && KeyLoaded(user.fallbackDns, r.fallbackDns, Defaults.fallbackDns)
      && KeyLoaded(user.autoRestartAdapter, r.autoRestartAdapter, Defaults.autoRestartAdapter)
      && KeyLoaded(user.gamePause, r.gamePause, Defaults.gamePause)
      && KeyLoaded(user.gameCacheSeconds, r.gameCacheSeconds, Defaults.gameCacheSeconds)
      && KeyLoaded(user.dnsUpdateUrl, r.dnsUpdateUrl, Defaults.dnsUpdateUrl)
      && KeyLoaded(user.customDns, r.customDns, Defaults.customDns)
      && KeyLoaded(user.games, r.games, Defaults.games)
      && KeyLoaded(user.clearTerminal, r.clearTerminal, Defaults.clearTerminal)
      && KeyLoaded(user.maxTerminalLines, r.maxTerminalLines, Defaults.maxTerminalLines)
  {
  }
}
