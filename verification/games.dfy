/** Game detection (`is_game_running`, dns.py) and the cached game check
    at the top of each `worker_main` iteration that pauses switching while
    a game runs. */
module Games {
  import opened Options
  import opened Text

  const GamesBase: seq<string> := [
    "valorant.exe", "csgo.exe", "dota2.exe", "pubg.exe", "apex.exe", "fortnite.exe", "overwatch.exe",
    "leagueoflegends.exe", "minecraft.exe", "gta5.exe", "rust.exe", "rainbowsix.exe", "warzone.exe",
    "rocketleague.exe", "escape_from_tarkov.exe", "palworld.exe", "starfield.exe", "eldenring.exe",
    "worldofwarcraft.exe", "fifa24.exe", "genshinimpact.exe", "hogwartslegacy.exe"
  ]

  /** The built-in game names followed by the user's extra ones. */
  function GameList(extra: seq<string>): seq<string> {
    GamesBase + extra
  }

  function LowerAll(names: seq<string>): (r: seq<string>)
    ensures |r| == |names| && forall i | 0 <= i < |names| :: r[i] == Lower(names[i])
  {
    if names == [] then [] else [Lower(names[0])] + LowerAll(names[1..])
  }

  /** `name` equals some listed game name, ignoring ASCII case. */
  predicate IsListedGame(name: string, games: seq<string>) {
    exists g | g in games :: Lower(name) == Lower(g)
  }

  /** Scanning the process table: a process whose name is unreadable
      (`None`) makes `.lower()` raise, which ends the scan with "no game";
      otherwise the scan stops at the first process whose lowered name is
      among the lowered game names. The result is true exactly when some
      process matches and every process before it had a name. */
  function ScanProcesses(procs: seq<Option<string>>, lowered: seq<string>): (r: bool)
    ensures r <==> exists i | 0 <= i < |procs| ::
                      && procs[i].Some? && Lower(procs[i].value) in lowered
                      && forall j | 0 <= j < i :: procs[j].Some?
  {
    if procs == [] then false
    else if procs[0].None? then false
    else if Lower(procs[0].value) in lowered then true
    else
      var r := ScanProcesses(procs[1..], lowered);
      assert r ==> exists i | 0 <= i < |procs| ::
                      && procs[i].Some? && Lower(procs[i].value) in lowered
                      && forall j | 0 <= j < i :: procs[j].Some? by {
        if r {
          var i :| 0 <= i < |procs[1..]| && procs[1..][i].Some? && Lower(procs[1..][i].value) in lowered
                   && forall j | 0 <= j < i :: procs[1..][j].Some?;
          assert forall j | 0 <= j < i + 1 :: procs[j].Some?;
        }
      }
      r
  }

  /** Lowering every game name once and testing membership of the lowered
      process name is the same as a case-insensitive comparison. */
  lemma LoweredMembership(games: seq<string>, name: string)
    ensures Lower(name) in LowerAll(games) <==> IsListedGame(name, games)
  {
    var lowered := LowerAll(games);
    if Lower(name) in lowered {
      var k :| 0 <= k < |lowered| && lowered[k] == Lower(name);
      assert games[k] in games;
    }
    if IsListedGame(name, games) {
      var g :| g in games && Lower(name) == Lower(g);
      var k :| 0 <= k < |games| && games[k] == g;
      assert lowered[k] == Lower(name);
    }
  }

  /** The scan against an arbitrary list of game names. */
  function ScanGames(gamePause: bool, games: seq<string>, procs: seq<Option<string>>): (r: bool)
    ensures r <==> gamePause && exists i | 0 <= i < |procs| ::
                      && procs[i].Some? && IsListedGame(procs[i].value, games)
                      && forall j | 0 <= j < i :: procs[j].Some?
  {
    if !gamePause then false
    else if games == [] then false
    else
      var lowered := LowerAll(games);
      forall name ensures Lower(name) in lowered <==> IsListedGame(name, games) {
        LoweredMembership(games, name);
      }
      ScanProcesses(procs, lowered)
  }

  /** `is_game_running`: false when game pausing is off; otherwise whether
      the process scan finds one of the built-in or user-listed games,
      compared case-insensitively and as whole names. */
  function IsGameRunning(gamePause: bool, extra: seq<string>, procs: seq<Option<string>>): (r: bool)
    ensures r <==> gamePause && exists i | 0 <= i < |procs| ::
                      && procs[i].Some? && IsListedGame(procs[i].value, GameList(extra))
                      && forall j | 0 <= j < i :: procs[j].Some?
  {
    ScanGames(gamePause, GameList(extra), procs)
  }

  function UpperNames(procs: seq<Option<string>>): (r: seq<Option<string>>)
    ensures |r| == |procs|
    ensures forall i | 0 <= i < |procs| :: r[i] == (if procs[i].Some? then Some(Upper(procs[i].value)) else None)
  {
    if procs == [] then []
    else [if procs[0].Some? then Some(Upper(procs[0].value)) else None] + UpperNames(procs[1..])
  }

  /** Detection ignores the case of process names: upper-casing every name
      in the process table does not change the answer. */
  lemma DetectionIgnoresCase(gamePause: bool, extra: seq<string>, procs: seq<Option<string>>)
    ensures IsGameRunning(gamePause, extra, UpperNames(procs)) == IsGameRunning(gamePause, extra, procs)
  {
    ScanIgnoresCase(gamePause, GameList(extra), procs);
  }

  lemma ScanIgnoresCase(gamePause: bool, games: seq<string>, procs: seq<Option<string>>)
    ensures ScanGames(gamePause, games, UpperNames(procs)) == ScanGames(gamePause, games, procs)
  {
    var up := UpperNames(procs);
    forall i | 0 <= i < |procs| && procs[i].Some?
      ensures IsListedGame(up[i].value, games) == IsListedGame(procs[i].value, games)
    {
      LowerAbsorbs(procs[i].value);
    }
  }

  // ---------------------------------------------------------------------
  // The cached check in the main loop
  // ---------------------------------------------------------------------

  /** A change of the game state, which the loop reports on the dashboard. */
  datatype Transition = GameStarted | GameEnded

  /** The loop's game bookkeeping: when the last scan ran, the state last
      reported, and the current `game_running` flag (`None` before the
      first scan has assigned it). */
  datatype GameWatch = GameWatch(lastCheck: int, lastState: bool, running: Option<bool>)

  const InitialWatch := GameWatch(0, false, None)

  /** The check at the top of an iteration at time `now`: a new scan runs
      only when more than `cacheSeconds` have passed since the last one; a
      scan whose answer differs from the last reported state reports a
      transition; within the cache window nothing changes. */
  function WatchStep(g: GameWatch, now: int, cacheSeconds: int, scan: bool): (r: (GameWatch, Option<Transition>))
    ensures now - g.lastCheck <= cacheSeconds ==> r == (g, None)
    ensures now - g.lastCheck > cacheSeconds ==>
              && r.0 == GameWatch(now, scan, Some(scan))
              && (r.1.Some? <==> scan != g.lastState)
              && (r.1 == Some(GameStarted) <==> scan && !g.lastState)
    ensures r.0.running.None? <==> g.running.None? && now - g.lastCheck <= cacheSeconds
  {
    if now - g.lastCheck > cacheSeconds then
      var t := if scan == g.lastState then None else if scan then Some(GameStarted) else Some(GameEnded);
      (GameWatch(now, scan, Some(scan)), t)
    else (g, None)
  }
}
