/** Classification of a dashboard visitor from its User-Agent header
    (`get_client_info`, dns.py): a platform and a browser chosen by
    first-matching substring rules on the lower-cased header. */
module Client {
  import opened Options
  import opened Text

  datatype Platform = Windows | Linux | MacOS | Android | IOS | UnknownPlatform
  datatype Browser = Chrome | Firefox | Safari | Edge | Opera | UnknownBrowser

  function PlatformLabel(p: Platform): string {
    match p
    case Windows => "Windows"
    case Linux => "Linux"
    case MacOS => "macOS"
    case Android => "Android"
    case IOS => "iOS"
    case UnknownPlatform => "Unknown"
  }

  function BrowserLabel(b: Browser): string {
    match b
    case Chrome => "Chrome"
    case Firefox => "Firefox"
    case Safari => "Safari"
    case Edge => "Edge"
    case Opera => "Opera"
    case UnknownBrowser => "Unknown"
  }

  /** The platform rules, tried in order on the lower-cased header. The
      first rule that matches wins, so a header naming two platforms
      reports the earlier one. */
  function PlatformOf(l: string): (r: Platform)
    ensures r == Windows <==> Contains(l, "windows")
    ensures r == Linux <==> !Contains(l, "windows") && Contains(l, "linux")
    ensures r == UnknownPlatform <==>
              !Contains(l, "windows") && !Contains(l, "linux") && !Contains(l, "mac") && !Contains(l, "darwin")
              && !Contains(l, "android") && !Contains(l, "ios") && !Contains(l, "iphone")
  {
    if Contains(l, "windows") then Windows
    else if Contains(l, "linux") then Linux
    else if Contains(l, "mac") || Contains(l, "darwin") then MacOS
    else if Contains(l, "android") then Android
    else if Contains(l, "ios") || Contains(l, "iphone") then IOS
    else UnknownPlatform
  }

  /** The browser rules, tried in order: Chrome unless the header also
      says `edg`, Firefox, Safari unless it also says `chrome`, Edge,
      Opera. */
  function BrowserOf(l: string): (r: Browser)
    ensures r == Chrome <==> Contains(l, "chrome") && !Contains(l, "edg")
    ensures r == Edge <==> Contains(l, "edg") && !Contains(l, "firefox") && (Contains(l, "chrome") || !Contains(l, "safari"))
    ensures r == UnknownBrowser <==>
              !Contains(l, "chrome") && !Contains(l, "firefox") && !Contains(l, "safari")
              && !Contains(l, "edg") && !Contains(l, "opera")
  {
    if Contains(l, "chrome") && !Contains(l, "edg") then Chrome
    else if Contains(l, "firefox") then Firefox
    else if Contains(l, "safari") && !Contains(l, "chrome") then Safari
    else if Contains(l, "edg") then Edge
    else if Contains(l, "opera") then Opera
    else UnknownBrowser
  }

  /** The three values `get_client_info` returns. */
  datatype ClientInfo = ClientInfo(text: string, platform: string, browser: string)

  function InfoText(p: Platform, b: Browser): string {
    PlatformLabel(p) + " (" + BrowserLabel(b) + ")"
  }

  /** `get_client_info`: the header is lower-cased once and both rule
      lists read the lowered text. */
  function GetClientInfo(ua: string): (r: ClientInfo)
    ensures r.platform == PlatformLabel(PlatformOf(Lower(ua)))
    ensures r.browser == BrowserLabel(BrowserOf(Lower(ua)))
    ensures ParseInfoText(r.text) == Some((PlatformOf(Lower(ua)), BrowserOf(Lower(ua))))
  {
    var l := Lower(ua);
    var p, b := PlatformOf(l), BrowserOf(l);
    InfoTextRoundTrip(p, b);
    ClientInfo(InfoText(p, b), PlatformLabel(p), BrowserLabel(b))
  }

  // ---------------------------------------------------------------------
  // A rule-table reading of the same classification
  // ---------------------------------------------------------------------

  /** A rule fires when the header contains one of its `anyOf` words and
      none of its `noneOf` words. */
  datatype Rule<L> = Rule(anyOf: seq<string>, noneOf: seq<string>, outcome: L)

  predicate Fires<L>(rule: Rule<L>, l: string) {
    (exists w | w in rule.anyOf :: Contains(l, w)) && forall w | w in rule.noneOf :: !Contains(l, w)
  }

  /** The result of the first rule at or after position `i` that fires,
      or `default`. */
  function FirstRuleFrom<L>(rules: seq<Rule<L>>, i: nat, l: string, default: L): L
    requires i <= |rules|
    decreases |rules| - i
  {
    if i == |rules| then default
    else if Fires(rules[i], l) then rules[i].outcome
    else FirstRuleFrom(rules, i + 1, l, default)
  }

  /** The result of the first rule that fires, or `default`. */
  function FirstRule<L>(rules: seq<Rule<L>>, l: string, default: L): L {
    FirstRuleFrom(rules, 0, l, default)
  }

  /** What "first rule that fires" means: the default when no rule fires,
      and otherwise the outcome of the rule that fires while no earlier one
      does. */
  lemma {:induction false} FirstRuleFromFinds<L>(rules: seq<Rule<L>>, i: nat, l: string, default: L)
    requires i <= |rules|
    ensures (forall k | i <= k < |rules| :: !Fires(rules[k], l)) ==> FirstRuleFrom(rules, i, l, default) == default
    ensures forall k | i <= k < |rules| && Fires(rules[k], l) && (forall j | i <= j < k :: !Fires(rules[j], l)) ::
              FirstRuleFrom(rules, i, l, default) == rules[k].outcome
    decreases |rules| - i
  {
    if i < |rules| && !Fires(rules[i], l) {
      FirstRuleFromFinds(rules, i + 1, l, default);
    }
  }

  lemma FirstRuleFinds<L>(rules: seq<Rule<L>>, l: string, default: L)
    ensures (forall k | 0 <= k < |rules| :: !Fires(rules[k], l)) ==> FirstRule(rules, l, default) == default
    ensures forall k | 0 <= k < |rules| && Fires(rules[k], l) && (forall j | 0 <= j < k :: !Fires(rules[j], l)) ::
              FirstRule(rules, l, default) == rules[k].outcome
  {
    FirstRuleFromFinds(rules, 0, l, default);
  }

  const PlatformRules: seq<Rule<Platform>> := [
    Rule(["windows"], [], Windows),
    Rule(["linux"], [], Linux),
    Rule(["mac", "darwin"], [], MacOS),
    Rule(["android"], [], Android),
    Rule(["ios", "iphone"], [], IOS)
  ]

  const BrowserRules: seq<Rule<Browser>> := [
    Rule(["chrome"], ["edg"], Chrome),
    Rule(["firefox"], [], Firefox),
    Rule(["safari"], ["chrome"], Safari),
    Rule(["edg"], [], Edge),
    Rule(["opera"], [], Opera)
  ]

  lemma FiresOne<L>(word: string, outcome: L, l: string)
    ensures Fires(Rule([word], [], outcome), l) <==> Contains(l, word)
  {
    assert word in [word];
  }

  lemma FiresEither<L>(a: string, b: string, outcome: L, l: string)
    ensures Fires(Rule([a, b], [], outcome), l) <==> Contains(l, a) || Contains(l, b)
  {
    assert a in [a, b] && b in [a, b];
  }

  lemma FiresUnless<L>(word: string, unless: string, outcome: L, l: string)
    ensures Fires(Rule([word], [unless], outcome), l) <==> Contains(l, word) && !Contains(l, unless)
  {
    assert word in [word];
  }

  /** Which platform rules fire, in terms of the words the header holds. */
  lemma PlatformRulesFire(l: string)
    ensures Fires(PlatformRules[0], l) <==> Contains(l, "windows")
    ensures Fires(PlatformRules[1], l) <==> Contains(l, "linux")
    ensures Fires(PlatformRules[2], l) <==> Contains(l, "mac") || Contains(l, "darwin")
    ensures Fires(PlatformRules[3], l) <==> Contains(l, "android")
    ensures Fires(PlatformRules[4], l) <==> Contains(l, "ios") || Contains(l, "iphone")
  {
    FiresOne("windows", Windows, l);
    FiresOne("linux", Linux, l);
    FiresEither("mac", "darwin", MacOS, l);
    FiresOne("android", Android, l);
    FiresEither("ios", "iphone", IOS, l);
  }

  /** Which browser rules fire, in terms of the words the header holds. */
  lemma BrowserRulesFire(l: string)
    ensures Fires(BrowserRules[0], l) <==> Contains(l, "chrome") && !Contains(l, "edg")
    ensures Fires(BrowserRules[1], l) <==> Contains(l, "firefox")
    ensures Fires(BrowserRules[2], l) <==> Contains(l, "safari") && !Contains(l, "chrome")
    ensures Fires(BrowserRules[3], l) <==> Contains(l, "edg")
    ensures Fires(BrowserRules[4], l) <==> Contains(l, "opera")
  {
    FiresUnless("chrome", "edg", Chrome, l);
    FiresOne("firefox", Firefox, l);
    FiresUnless("safari", "chrome", Safari, l);
    FiresOne("edg", Edge, l);
    FiresOne("opera", Opera, l);
  }

  /** The platform is the outcome of the first platform rule that fires. */
  lemma PlatformIsFirstRule(l: string)
    ensures PlatformOf(l) == FirstRule(PlatformRules, l, UnknownPlatform)
  {
    var rs := PlatformRules;
    PlatformRulesFire(l);
    assert FirstRuleFrom(rs, 0, l, UnknownPlatform) == if Fires(rs[0], l) then Windows else FirstRuleFrom(rs, 1, l, UnknownPlatform);
    assert FirstRuleFrom(rs, 1, l, UnknownPlatform) == if Fires(rs[1], l) then Linux else FirstRuleFrom(rs, 2, l, UnknownPlatform);
    assert FirstRuleFrom(rs, 2, l, UnknownPlatform) == if Fires(rs[2], l) then MacOS else FirstRuleFrom(rs, 3, l, UnknownPlatform);
    assert FirstRuleFrom(rs, 3, l, UnknownPlatform) == if Fires(rs[3], l) then Android else FirstRuleFrom(rs, 4, l, UnknownPlatform);
    assert FirstRuleFrom(rs, 4, l, UnknownPlatform) == if Fires(rs[4], l) then IOS else FirstRuleFrom(rs, 5, l, UnknownPlatform);
    assert FirstRuleFrom(rs, 5, l, UnknownPlatform) == UnknownPlatform;
  }

  /** The browser is the outcome of the first browser rule that fires. */
  lemma BrowserIsFirstRule(l: string)
    ensures BrowserOf(l) == FirstRule(BrowserRules, l, UnknownBrowser)
  {
    var rs := BrowserRules;
    BrowserRulesFire(l);
    assert FirstRuleFrom(rs, 0, l, UnknownBrowser) == if Fires(rs[0], l) then Chrome else FirstRuleFrom(rs, 1, l, UnknownBrowser);
    assert FirstRuleFrom(rs, 1, l, UnknownBrowser) == if Fires(rs[1], l) then Firefox else FirstRuleFrom(rs, 2, l, UnknownBrowser);
    assert FirstRuleFrom(rs, 2, l, UnknownBrowser) == if Fires(rs[2], l) then Safari else FirstRuleFrom(rs, 3, l, UnknownBrowser);
    assert FirstRuleFrom(rs, 3, l, UnknownBrowser) == if Fires(rs[3], l) then Edge else FirstRuleFrom(rs, 4, l, UnknownBrowser);
    assert FirstRuleFrom(rs, 4, l, UnknownBrowser) == if Fires(rs[4], l) then Opera else FirstRuleFrom(rs, 5, l, UnknownBrowser);
    assert FirstRuleFrom(rs, 5, l, UnknownBrowser) == UnknownBrowser;
  }

  // ---------------------------------------------------------------------
  // Properties
  // ---------------------------------------------------------------------

  /** The header is lower-cased first, so its letter case never matters. */
  lemma ClassificationIgnoresCase(ua: string)
    ensures GetClientInfo(Upper(ua)) == GetClientInfo(ua)
  {
    LowerAbsorbs(ua);
  }

  /** A lowered header that names Linux and then Android, as Android
      browsers' headers do, is reported as Linux (or Windows): the Linux
      rule comes before the Android one. */
  lemma AndroidHeaderReadsLinux(pre: string, mid: string, post: string)
    ensures var l := pre + "linux" + mid + "android" + post;
            PlatformOf(l) == if Contains(l, "windows") then Windows else Linux
  {
    var l := pre + "linux" + mid + "android" + post;
    assert l[|pre|..|pre| + 5] == "linux";
    ContainsAt(l, "linux", |pre|);
  }

  /** A lowered header that names an iPhone and then "mac", as iPhone
      browsers' headers do ("Mac OS X"), is reported as macOS unless it
      also names Windows or Linux. */
  lemma IphoneHeaderReadsMac(pre: string, mid: string, post: string)
    ensures var l := pre + "iphone" + mid + "mac" + post;
            !Contains(l, "windows") && !Contains(l, "linux") ==> PlatformOf(l) == MacOS
  {
    var l := pre + "iphone" + mid + "mac" + post;
    var at := |pre| + 6 + |mid|;
    assert l[at..at + 3] == "mac";
    ContainsAt(l, "mac", at);
  }

  // ---------------------------------------------------------------------
  // Reading the combined text back
  // ---------------------------------------------------------------------

  function PlatformFromLabel(s: string): Option<Platform> {
    if s == "Windows" then Some(Windows)
    else if s == "Linux" then Some(Linux)
    else if s == "macOS" then Some(MacOS)
    else if s == "Android" then Some(Android)
    else if s == "iOS" then Some(IOS)
    else if s == "Unknown" then Some(UnknownPlatform)
    else None
  }

  function BrowserFromLabel(s: string): Option<Browser> {
    if s == "Chrome" then Some(Chrome)
    else if s == "Firefox" then Some(Firefox)
    else if s == "Safari" then Some(Safari)
    else if s == "Edge" then Some(Edge)
    else if s == "Opera" then Some(Opera)
    else if s == "Unknown" then Some(UnknownBrowser)
    else None
  }

  /** Splits `"<platform> (<browser>)"` at its first `(`. */
  function ParseInfoText(s: string): Option<(Platform, Browser)> {
    var i := IndexOf(s, '(');
    if i < 1 || i == |s| || s[i - 1] != ' ' || s[|s| - 1] != ')' || i + 1 > |s| - 1 then None
    else
      var p := PlatformFromLabel(s[..i - 1]);
      var b := BrowserFromLabel(s[i + 1..|s| - 1]);
      if p.Some? && b.Some? then Some((p.value, b.value)) else None
  }

  lemma PlatformLabelReadsBack(p: Platform)
    ensures '(' !in PlatformLabel(p) && PlatformFromLabel(PlatformLabel(p)) == Some(p)
  {
  }

  lemma BrowserLabelReadsBack(b: Browser)
    ensures BrowserFromLabel(BrowserLabel(b)) == Some(b)
  {
  }

  /** Where the parser cuts `pl + " (" + bl + ")"` when `pl` has no `(`. */
  lemma InfoTextShape(pl: string, bl: string)
    requires '(' !in pl
    ensures var s := pl + " (" + bl + ")";
            && IndexOf(s, '(') == |pl| + 1 && s[|pl|] == ' ' && s[|s| - 1] == ')'
            && s[..|pl|] == pl && s[|pl| + 2..|s| - 1] == bl
  {
    var s := pl + " (" + bl + ")";
    assert s[|pl| + 1] == '(';
    assert forall j | 0 <= j < |pl| :: s[j] == pl[j];
  }

  /** The combined text names its platform and browser unambiguously. */
  lemma InfoTextRoundTrip(p: Platform, b: Browser)
    ensures ParseInfoText(InfoText(p, b)) == Some((p, b))
  {
    PlatformLabelReadsBack(p);
    BrowserLabelReadsBack(b);
    InfoTextShape(PlatformLabel(p), BrowserLabel(b));
  }

  /** Hence different classifications never share a text. */
  lemma InfoTextInjective(p1: Platform, b1: Browser, p2: Platform, b2: Browser)
    ensures InfoText(p1, b1) == InfoText(p2, b2) <==> p1 == p2 && b1 == b2
  {
    InfoTextRoundTrip(p1, b1);
    InfoTextRoundTrip(p2, b2);
  }
}
