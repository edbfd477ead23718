// Parsing a formatted DSN gives the configuration back: exactly when.
module DsnRoundTrip {
  import opened DsnText
  import opened Dsn

  // ---- Names ---------------------------------------------------------------------------------

  /** Letters only, so none of the separators. */
  predicate Letters(s: string)
  {
    forall c | c in s :: 'A' <= c <= 'z'
  }

  lemma {:induction false} FlagLettersOne(f: Flag)
    requires f.AllowAllFiles? || f.AllowCleartextPasswords? || f.AllowNativePasswords? || f.AllowOldPasswords?
             || f.CheckConnLiveness?
    ensures Letters(FlagText(f))
  {}

  lemma {:induction false} FlagLettersTwo(f: Flag)
    requires f.ClientFoundRows? || f.ColumnsWithAlias? || f.InterpolateParams? || f.MultiStatements? || f.ParseTime?
             || f.RejectReadOnly?
    ensures Letters(FlagText(f))
  {}

  lemma {:induction false} FlagLetters(f: Flag)
    ensures Letters(FlagText(f))
  {
    hide FlagText, Letters;
    match f
    case AllowAllFiles => FlagLettersOne(f);
    case AllowCleartextPasswords => FlagLettersOne(f);
    case AllowNativePasswords => FlagLettersOne(f);
    case AllowOldPasswords => FlagLettersOne(f);
    case CheckConnLiveness => FlagLettersOne(f);
    case _ => FlagLettersTwo(f);
  }

  lemma {:induction false} FlagRoundTrip(f: Flag)
    ensures FlagOf(FlagText(f)) == Some(f)
  {}

  lemma {:induction false} NameLetters(n: Name)
    requires !n.Other?
    ensures Letters(NameText(n))
  {
    if n.Bool? {
      FlagLetters(n.f);
    }
  }

  lemma {:induction false} NotAFlag(n: Name)
    requires !n.Other? && !n.Bool?
    ensures FlagOf(NameText(n)) == None
  {
    match n
    case Collation =>
    case Compress =>
    case Loc =>
    case ReadTimeout =>
    case ServerPubKey =>
    case Strict =>
    case Timeout =>
    case Tls =>
    case WriteTimeout =>
    case MaxAllowedPacket =>
  }

  lemma {:induction false} NameRoundTrip(n: Name)
    requires !n.Other?
    ensures NameOf(NameText(n)) == n
  {
    if n.Bool? {
      FlagRoundTrip(n.f);
    } else {
      NotAFlag(n);
      hide FlagOf;
      match n
      case Collation =>
      case Compress =>
      case Loc =>
      case ReadTimeout =>
      case ServerPubKey =>
      case Strict =>
      case Timeout =>
      case Tls =>
      case WriteTimeout =>
      case MaxAllowedPacket =>
    }
  }

  /** A parameter name that parseDSNParams finds again. */
  predicate WellNamed(n: Name)
  {
    NameOf(NameText(n)) == n && '/' !in NameText(n) && '&' !in NameText(n) && '=' !in NameText(n)
  }

  lemma {:induction false} FixedNames(n: Name)
    requires !n.Other?
    ensures WellNamed(n)
  {
    hide NameText, NameOf;
    NameRoundTrip(n);
    NameLetters(n);
    var s := NameText(n);
    assert '/' in s ==> 'A' <= '/' <= 'z';
    assert '&' in s ==> 'A' <= '&' <= 'z';
    assert '=' in s ==> 'A' <= '=' <= 'z';
  }

  // ---- The parts of a DSN --------------------------------------------------------------------

  predicate Clean(x: Setting)
  {
    WellNamed(x.n) && '/' !in x.value && '&' !in x.value
  }

  predicate AllClean(list: seq<Setting>)
  {
    forall x | x in list :: Clean(x)
  }

  lemma {:induction false} SettingTextsHead(list: seq<Setting>)
    requires list != []
    ensures SettingTexts(list) == [SettingText(list[0])] + SettingTexts(list[1..])
    decreases |list|
  {
    hide SettingText;
    if |list| == 1 {
      assert list[..0] == [] && list[1..] == [];
    } else {
      SettingTextsHead(list[..|list| - 1]);
      assert list[..|list| - 1][1..] == list[1..][..|list| - 2];
    }
  }

  lemma {:induction false} SettingParses(c: Config, x: Setting, env: Env)
    requires Clean(x)
    ensures ParseSegment(c, SettingText(x), env) == ApplyParam(c, x.n, x.value, env)
    ensures '&' !in SettingText(x) && '/' !in SettingText(x)
  {
    hide NameText, NameOf, ApplyParam;
    var k := NameText(x.n);
    FirstIndexIs(k, '=', x.value);
    assert SettingText(x) == k + ['='] + x.value;
    assert SettingText(x)[..|k|] == k && SettingText(x)[|k| + 1..] == x.value;
  }

  /** The switch applied to a list of settings. */
  function ApplyAll(c: Config, list: seq<Setting>, env: Env): Parsed
    decreases |list|
  {
    if list == [] then Ok(c)
    else match ApplyParam(c, list[0].n, list[0].value, env)
         case Ok(d) => ApplyAll(d, list[1..], env)
         case Err(e) => Err(e)
  }

  lemma {:induction false} SegmentsApply(c: Config, list: seq<Setting>, env: Env)
    requires AllClean(list)
    ensures ParseSegments(c, SettingTexts(list), env) == ApplyAll(c, list, env)
    ensures forall t | t in SettingTexts(list) :: '&' !in t && '/' !in t
    decreases |list|
  {
    hide SettingTexts, SettingText, ApplyParam, ParseSegment, Clean;
    if list == [] {
      NoTexts();
    } else {
      assert list[0] in list && forall x | x in list[1..] :: x in list;
      SettingTextsHead(list);
      var ts := SettingTexts(list);
      assert ts[0] == SettingText(list[0]) && ts[1..] == SettingTexts(list[1..]);
      SettingParses(c, list[0], env);
      var r := ApplyParam(c, list[0].n, list[0].value, env);
      SegmentsApply(if r.Ok? then r.cfg else c, list[1..], env);
      assert forall t | t in ts :: t == ts[0] || t in ts[1..];
    }
  }

  lemma {:induction false} NoTexts()
    ensures SettingTexts([]) == []
  {}

  /** The text behind the database name parses to the settings, and has no '/'. */
  lemma {:induction false} ParamTextParses(c: Config, list: seq<Setting>, env: Env)
    requires AllClean(list)
    ensures '/' !in ParamText(list)
    ensures list != [] ==> ParamText(list)[0] == '?'
                           && ParseParams(c, ParamText(list)[1..], env) == ApplyAll(c, list, env)
  {
    hide SettingTexts, ApplyAll, ParseSegments, Clean;
    if list != [] {
      SegmentsApply(c, list, env);
      var ts := SettingTexts(list);
      SplitJoin(ts, '&');
      NotInJoin(ts, '&', '/');
      assert ParamText(list)[1..] == Join(ts, '&');
    }
  }

  lemma {:induction false} RightParses(c: Config, dbName: string, list: seq<Setting>, env: Env)
    requires AllClean(list) && '?' !in dbName
    ensures ParseRight(c, dbName + ParamText(list), env)
         == match ApplyAll(c, list, env) case Ok(d) => Ok(d.(dbName := dbName)) case Err(e) => Err(e)
  {
    hide ParseParams, AllClean;
    ParamTextParses(c, list, env);
    if list == [] {
      assert ParamText(list) == "" && dbName + "" == dbName;
      NoFirstIndex(dbName, '?');
      assert dbName[..|dbName|] == dbName;
      assert ApplyAll(c, [], env) == Ok(c);
    } else {
      hide ApplyAll;
      var p := ParamText(list);
      hide ParamText;
      assert dbName + p == dbName + ['?'] + p[1..];
      FirstIndexIs(dbName, '?', p[1..]);
      assert (dbName + p)[|dbName| + 1..] == p[1..] && (dbName + p)[..|dbName|] == dbName;
    }
  }

  lemma {:induction false} CredentialsParse(c: Config, user: string, passwd: string)
    requires ':' !in user && c.passwd == ""
    ensures ParseCredentials(c, user + if passwd == "" then "" else ":" + passwd) == c.(user := user, passwd := passwd)
  {
    if passwd == "" {
      assert user + "" == user;
      NoFirstIndex(user, ':');
      assert user[..|user|] == user;
    } else {
      var t := user + [':'] + passwd;
      assert user + (":" + passwd) == t;
      FirstIndexIs(user, ':', passwd);
      assert t[..|user|] == user && t[|user| + 1..] == passwd;
    }
  }

  lemma {:induction false} HostParses(c: Config, net: string, addr: string)
    requires '(' !in net && addr != ""
    ensures ParseHost(c, net + ("(" + addr + ")")) == Ok(c.(net := net, addr := addr))
  {
    var t := net + ['('] + (addr + ")");
    assert net + ("(" + addr + ")") == t;
    FirstIndexIs(net, '(', addr + ")");
    assert t[..|net|] == net && t[|net| + 1..|t| - 1] == addr && t[|t| - 1] == ')';
  }

  predicate Separable(cfg: Config)
  {
    && ':' !in cfg.user && '@' !in cfg.net && '(' !in cfg.net && '@' !in cfg.addr
    && '/' !in cfg.dbName && '?' !in cfg.dbName
    && '/' !in cfg.collation && '&' !in cfg.collation
    && forall k | k in cfg.params :: WellNamed(Other(k))
  }

  lemma {:induction false} LeftParses(c: Config, cfg: Config)
    requires Separable(cfg) && cfg.net != "" && cfg.addr != "" && (cfg.user == "" ==> cfg.passwd == "")
    requires c.user == "" && c.passwd == ""
    ensures ParseLeft(c, Credentials(cfg) + Host(cfg))
            == Ok(c.(user := cfg.user, passwd := cfg.passwd, net := cfg.net, addr := cfg.addr))
  {
    hide ParseCredentials, ParseHost, WellNamed;
    var host := cfg.net + ("(" + cfg.addr + ")");
    assert Host(cfg) == host && '@' !in host;
    HostParses(c, cfg.net, cfg.addr);
    if cfg.user == "" {
      assert Credentials(cfg) + host == host && host[0..] == host;
      NoLastIndex(host, '@');
    } else {
      var cred := cfg.user + if cfg.passwd == "" then "" else ":" + cfg.passwd;
      CredentialsParse(c, cfg.user, cfg.passwd);
      var d := c.(user := cfg.user, passwd := cfg.passwd);
      HostParses(d, cfg.net, cfg.addr);
      var t := cred + ['@'] + host;
      assert Credentials(cfg) + host == t;
      LastIndexIs(cred, '@', host);
      assert t[..|cred|] == cred && t[|cred| + 1..] == host;
    }
  }

  // ---- The parameters ------------------------------------------------------------------------

  /** What is asked of the library functions and the registries. */
  ghost predicate Laws(env: Env)
  {
    && (forall i :: env.atoi(env.itoa(i)) == Some(i) && '/' !in env.itoa(i) && '&' !in env.itoa(i))
    && (forall d | d > 0 ::
          env.parseDuration(env.durationText(d)) == Some(d) && '/' !in env.durationText(d)
            && '&' !in env.durationText(d))
    && (forall s | env.loadLocation(s).Some? :: LocationLoads(env.loadLocation(s).value, env))
    && (forall s | env.tlsKnown(s) :: ReadBool(s) == None && ToLower(s) != "skip-verify" && ToLower(s) != "preferred")
  }

  /** A location is found under its own name. */
  predicate LocationLoads(l: Location, env: Env)
  {
    l != NilLoc && (l.Zone? ==> env.loadLocation(LocText(l)) == Some(l))
  }

  /** Strings that are escaped hold bytes. */
  predicate Bytes(cfg: Config)
  {
    IsBytes(LocText(cfg.loc)) && IsBytes(cfg.serverPubKey) && IsBytes(cfg.tlsConfig)
      && forall k | k in cfg.params :: IsBytes(cfg.params[k])
  }

  lemma {:induction false} ThenApply(c: Config, a: seq<Setting>, b: seq<Setting>, d: Config, env: Env)
    requires ApplyAll(c, a, env) == Ok(d)
    ensures ApplyAll(c, a + b, env) == ApplyAll(d, b, env)
    decreases |a|
  {
    hide ApplyParam;
    if a == [] {
      assert a + b == b;
    } else {
      assert (a + b)[0] == a[0] && (a + b)[1..] == a[1..] + b;
      ThenApply(ApplyParam(c, a[0].n, a[0].value, env).cfg, a[1..], b, d, env);
    }
  }

  lemma {:induction false} OptApplies(c: Config, b: bool, n: Name, v: string, env: Env)
    ensures ApplyAll(c, Opt(b, n, v), env) == if b then ApplyParam(c, n, v, env) else Ok(c)
  {
    hide ApplyParam;
    var list := [Setting(n, v)];
    assert list[1..] == [];
    assert forall d :: ApplyAll(d, [], env) == Ok(d);
  }

  lemma {:induction false} BoolReads(b: bool)
    ensures ReadBool(BoolText(b)) == Some(b) && '/' !in BoolText(b) && '&' !in BoolText(b)
  {}

  lemma {:induction false} FlagApplies(c: Config, cfg: Config, f: Flag, env: Env)
    requires f in c.flags <==> DefaultFlag(f)
    ensures ApplyAll(c, OptFlag(cfg, f), env) == Ok(SetFlag(c, f, f in cfg.flags))
    ensures AllClean(OptFlag(cfg, f))
  {
    hide ReadBool, BoolText, ApplyAll, WellNamed;
    BoolReads(f in cfg.flags);
    FixedNames(Bool(f));
    OptApplies(c, (f in cfg.flags) != DefaultFlag(f), Bool(f), BoolText(f in cfg.flags), env);
    assert SetFlag(c, f, f in c.flags).flags == c.flags;
  }

  lemma {:induction false} CleanAppend(a: seq<Setting>, b: seq<Setting>)
    ensures AllClean(a + b) <==> AllClean(a) && AllClean(b)
  {
    hide Clean;
    assert forall x | x in a :: x in a + b;
    assert forall x | x in b :: x in a + b;
  }

  /** Two steps, one after the other. */
  lemma {:induction false} Chain(c: Config, a: seq<Setting>, d: Config, b: seq<Setting>, e: Config, env: Env)
    requires ApplyAll(c, a, env) == Ok(d) && AllClean(a) && ApplyAll(d, b, env) == Ok(e) && AllClean(b)
    ensures ApplyAll(c, a + b, env) == Ok(e) && AllClean(a + b)
  {
    hide ApplyAll, AllClean;
    ThenApply(c, a, b, d, env);
    CleanAppend(a, b);
  }

  /** What the settings l make of c, no matter how. */
  predicate Leads(c: Config, l: seq<Setting>, d: Config, env: Env)
  {
    ApplyAll(c, l, env) == Ok(d) && AllClean(l)
  }

  lemma {:induction false} LeadsNowhere(c: Config, env: Env)
    ensures Leads(c, [], c, env)
  {}

  lemma {:induction false} LeadsOn(c: Config, a: seq<Setting>, d: Config, b: seq<Setting>, e: Config, env: Env)
    requires Leads(c, a, d, env) && Leads(d, b, e, env)
    ensures Leads(c, a + b, e, env)
  {
    hide ApplyAll, AllClean;
    Chain(c, a, d, b, e, env);
  }

  /** The order in which the flags are printed. */
  function Rank(f: Flag): nat
  {
    match f
    case AllowAllFiles => 0
    case AllowCleartextPasswords => 1
    case AllowNativePasswords => 2
    case AllowOldPasswords => 3
    case CheckConnLiveness => 4
    case ClientFoundRows => 5
    case ColumnsWithAlias => 6
    case InterpolateParams => 7
    case MultiStatements => 8
    case ParseTime => 9
    case RejectReadOnly => 10
  }

  /** The first k flags as in flags, the others as by default. */
  function Mixed(flags: set<Flag>, k: nat): set<Flag>
  {
    set f: Flag | if Rank(f) < k then f in flags else DefaultFlag(f)
  }

  lemma {:induction false} MixedEnds(flags: set<Flag>)
    ensures Mixed(flags, 0) == NewConfig().flags && Mixed(flags, 11) == flags
  {
    assert forall f :: f in Mixed(flags, 0) <==> f in NewConfig().flags;
  }

  lemma {:induction false} FlagStep(c: Config, l: seq<Setting>, d: Config, cfg: Config, f: Flag, env: Env)
    requires Leads(c, l, d, env) && d.flags == Mixed(cfg.flags, Rank(f))
    ensures Leads(c, l + OptFlag(cfg, f), d.(flags := Mixed(cfg.flags, Rank(f) + 1)), env)
  {
    hide ApplyAll, AllClean, OptFlag;
    FlagApplies(d, cfg, f, env);
    assert forall g: Flag :: Rank(g) == Rank(f) ==> g == f;
    assert SetFlag(d, f, f in cfg.flags).flags == Mixed(cfg.flags, Rank(f) + 1);
    Chain(c, l, d, OptFlag(cfg, f), d.(flags := Mixed(cfg.flags, Rank(f) + 1)), env);
  }

  lemma {:induction false} SettingStep(c: Config, l: seq<Setting>, d: Config, b: bool, n: Name, v: string, e: Config,
      env: Env)
    requires Leads(c, l, d, env)
    requires !n.Other? && (b ==> ApplyParam(d, n, v, env) == Ok(e) && '/' !in v && '&' !in v) && (!b ==> d == e)
    ensures Leads(c, l + Opt(b, n, v), e, env)
  {
    hide ApplyAll, AllClean, ApplyParam, Opt;
    OptStep(d, b, n, v, e, env);
    Chain(c, l, d, Opt(b, n, v), e, env);
  }

  lemma {:induction false} FromNothing(l: seq<Setting>)
    ensures [] + l == l
  {}

  lemma {:induction false} Leads1(c: Config, cfg: Config, env: Env)
    requires c.flags == Mixed(cfg.flags, 0)
    ensures Leads(c, Settings1(cfg), c.(flags := Mixed(cfg.flags, 6)), env)
  {
    hide Leads, OptFlag, Mixed;
    LeadsNowhere(c, env);
    var l := OptFlag(cfg, AllowAllFiles);
    FromNothing(l);
    FlagStep(c, [], c, cfg, AllowAllFiles, env);
    FlagStep(c, l, c.(flags := Mixed(cfg.flags, 1)), cfg, AllowCleartextPasswords, env);
    l := l + OptFlag(cfg, AllowCleartextPasswords);
    FlagStep(c, l, c.(flags := Mixed(cfg.flags, 2)), cfg, AllowNativePasswords, env);
    l := l + OptFlag(cfg, AllowNativePasswords);
    FlagStep(c, l, c.(flags := Mixed(cfg.flags, 3)), cfg, AllowOldPasswords, env);
    l := l + OptFlag(cfg, AllowOldPasswords);
    FlagStep(c, l, c.(flags := Mixed(cfg.flags, 4)), cfg, CheckConnLiveness, env);
    l := l + OptFlag(cfg, CheckConnLiveness);
    FlagStep(c, l, c.(flags := Mixed(cfg.flags, 5)), cfg, ClientFoundRows, env);
  }

  lemma {:induction false} EscapedValue(s: string)
    requires IsBytes(s)
    ensures QueryUnescape(QueryEscape(s)) == Some(s) && '/' !in QueryEscape(s) && '&' !in QueryEscape(s)
  {
    UnescapeEscape(s);
    EscapeIsSafe(s);
    var e := QueryEscape(s);
    assert '/' in e ==> EscapedChar('/');
    assert '&' in e ==> EscapedChar('&');
  }

  /** One optional setting that says what d says of c. */
  lemma {:induction false} OptStep(c: Config, b: bool, n: Name, v: string, d: Config, env: Env)
    requires !n.Other? && (b ==> ApplyParam(c, n, v, env) == Ok(d) && '/' !in v && '&' !in v) && (!b ==> c == d)
    ensures ApplyAll(c, Opt(b, n, v), env) == Ok(d) && AllClean(Opt(b, n, v))
  {
    hide ApplyParam, ApplyAll, WellNamed;
    FixedNames(n);
    OptApplies(c, b, n, v, env);
  }

  lemma {:induction false} PlainEscape(s: string)
    requires forall c | c in s :: Unreserved(c)
    ensures QueryEscape(s) == s
  {
    if s != "" {
      assert s[0] in s && forall c | c in s[1..] :: c in s;
      PlainEscape(s[1..]);
      assert s == [s[0]] + s[1..];
    }
  }

  /** A boolean word and a mode in any case are their own escaped form. */
  lemma {:induction false} ReservedWord(e: string, name: string)
    requires IsBytes(name) && e == QueryEscape(name)
    requires ReadBool(e).Some? || ToLower(e) == "skip-verify" || ToLower(e) == "preferred"
    ensures e == name
  {
    UnescapeEscape(name);
    if ReadBool(e).Some? {
      BoolPlain(e);
    } else {
      hide ToLower, ReadBool;
      LowerPlain(e);
    }
    hide QueryUnescape, QueryEscape, Unreserved, IsBytes;
    UnescapePlain(e);
  }

  lemma {:induction false} BoolPlain(e: string)
    requires ReadBool(e).Some?
    ensures forall c | c in e :: Unreserved(c)
  {}

  lemma {:induction false} LowerPlain(e: string)
    requires ToLower(e) == "skip-verify" || ToLower(e) == "preferred"
    ensures forall c | c in e :: Unreserved(c)
  {
    forall c | c in e
      ensures Unreserved(c)
    {
      var i :| 0 <= i < |e| && e[i] == c;
      LowerAt(e, i);
      LowerWords(ToLower(e), i);
    }
  }

  lemma {:induction false} LowerAt(e: string, i: nat)
    requires i < |e|
    ensures |ToLower(e)| == |e| && ToLower(e)[i] == if 'A' <= e[i] <= 'Z' then (e[i] as int + 32) as char else e[i]
  {
    if i > 0 {
      LowerAt(e[1..], i - 1);
    } else if |e| > 1 {
      LowerAt(e[1..], 0);
    }
  }

  lemma {:induction false} LowerWords(l: string, i: nat)
    requires (l == "skip-verify" || l == "preferred") && i < |l|
    ensures 'a' <= l[i] <= 'z' || l[i] == '-'
  {}

  lemma {:induction false} UnescapePlain(e: string)
    requires forall c | c in e :: Unreserved(c)
    ensures QueryUnescape(e) == Some(e)
  {
    if e != "" {
      assert e[0] in e && forall c | c in e[1..] :: c in e;
      UnescapePlain(e[1..]);
      assert e == [e[0]] + e[1..];
    }
  }

  lemma {:induction false} TlsReads(name: string, env: Env)
    requires Laws(env) && TlsAllowed(name, env) && name != "" && IsBytes(name)
    ensures ReadTls(QueryEscape(name)) == Some(name)
    ensures '/' !in QueryEscape(name) && '&' !in QueryEscape(name)
  {
    EscapedValue(name);
    var e := QueryEscape(name);
    if env.tlsKnown(name) {
      hide ReadBool, ToLower, QueryEscape, QueryUnescape, BoolText;
      if ReadBool(e).Some? || ToLower(e) == "skip-verify" || ToLower(e) == "preferred" {
        ReservedWord(e, name);
      }
    } else {
      TlsWords(name);
    }
  }

  lemma {:induction false} TlsWords(name: string)
    requires name == "true" || name == "false" || name == "skip-verify" || name == "preferred"
    ensures ReadTls(QueryEscape(name)) == Some(name)
  {
    PlainWord(name);
    PlainEscape(name);
    if name == "true" || name == "false" {
    } else {
      ModeWord(name);
    }
  }

  lemma {:induction false} PlainWord(name: string)
    requires name == "true" || name == "false" || name == "skip-verify" || name == "preferred"
    ensures forall c | c in name :: Unreserved(c)
  {}

  lemma {:induction false} ModeWord(name: string)
    requires name == "skip-verify" || name == "preferred"
    ensures ReadBool(name) == None && ToLower(name) == name
  {
    LowerSame(name);
  }

  lemma {:induction false} LowerSame(s: string)
    requires forall c | c in s :: !('A' <= c <= 'Z')
    ensures ToLower(s) == s
  {
    if s != "" {
      assert s[0] in s && forall c | c in s[1..] :: c in s;
      LowerSame(s[1..]);
      assert s == [s[0]] + s[1..];
    }
  }

  lemma {:induction false} Leads2(c: Config, cfg: Config, env: Env)
    requires c.flags == Mixed(cfg.flags, 6) && c.collation == DEFAULT_COLLATION && c.loc == Utc
    requires cfg.collation != "" && '/' !in cfg.collation && '&' !in cfg.collation
    requires LocationLoads(cfg.loc, env) && IsBytes(LocText(cfg.loc))
    ensures Leads(c, Settings2(cfg), c.(collation := cfg.collation, loc := cfg.loc, flags := Mixed(cfg.flags, 8)), env)
  {
    hide Leads, OptFlag, Opt, Mixed, QueryEscape, QueryUnescape, IsBytes;
    LeadsNowhere(c, env);
    var col := cfg.collation != DEFAULT_COLLATION && cfg.collation != "";
    var l := Opt(col, Collation, cfg.collation);
    FromNothing(l);
    SettingStep(c, [], c, col, Collation, cfg.collation, c.(collation := cfg.collation), env);
    FlagStep(c, l, c.(collation := cfg.collation), cfg, ColumnsWithAlias, env);
    l := l + OptFlag(cfg, ColumnsWithAlias);
    FlagStep(c, l, c.(collation := cfg.collation, flags := Mixed(cfg.flags, 7)), cfg, InterpolateParams, env);
    l := l + OptFlag(cfg, InterpolateParams);
    EscapedValue(LocText(cfg.loc));
    SettingStep(c, l, c.(collation := cfg.collation, flags := Mixed(cfg.flags, 8)),
                cfg.loc != Utc && cfg.loc != NilLoc, Loc, QueryEscape(LocText(cfg.loc)),
                c.(collation := cfg.collation, loc := cfg.loc, flags := Mixed(cfg.flags, 8)), env);
  }

  lemma {:induction false} Leads3(c: Config, cfg: Config, env: Env)
    requires Laws(env) && c.flags == Mixed(cfg.flags, 8) && c.readTimeout == 0 && cfg.readTimeout >= 0
    ensures Leads(c, Settings3(cfg, env), c.(readTimeout := cfg.readTimeout, flags := Mixed(cfg.flags, 11)), env)
  {
    hide Leads, OptFlag, Opt, Mixed, ReadBool, ToLower;
    LeadsNowhere(c, env);
    var l := OptFlag(cfg, MultiStatements);
    FromNothing(l);
    FlagStep(c, [], c, cfg, MultiStatements, env);
    FlagStep(c, l, c.(flags := Mixed(cfg.flags, 9)), cfg, ParseTime, env);
    l := l + OptFlag(cfg, ParseTime);
    var v := env.durationText(cfg.readTimeout);
    SettingStep(c, l, c.(flags := Mixed(cfg.flags, 10)), cfg.readTimeout > 0, ReadTimeout, v,
                c.(flags := Mixed(cfg.flags, 10), readTimeout := cfg.readTimeout), env);
    l := l + Opt(cfg.readTimeout > 0, ReadTimeout, v);
    FlagStep(c, l, c.(flags := Mixed(cfg.flags, 10), readTimeout := cfg.readTimeout), cfg, RejectReadOnly, env);
  }

  lemma {:induction false} LeadsKeyAndTimeout(c: Config, cfg: Config, env: Env)
    requires Laws(env) && c.serverPubKey == "" && c.timeout == 0 && cfg.timeout >= 0 && IsBytes(cfg.serverPubKey)
    ensures Leads(c, Opt(cfg.serverPubKey != "", ServerPubKey, QueryEscape(cfg.serverPubKey))
                     + Opt(cfg.timeout > 0, Timeout, env.durationText(cfg.timeout)),
                  c.(serverPubKey := cfg.serverPubKey, timeout := cfg.timeout), env)
  {
    hide Leads, Opt, QueryEscape, QueryUnescape, IsBytes;
    LeadsNowhere(c, env);
    EscapedValue(cfg.serverPubKey);
    var l := Opt(cfg.serverPubKey != "", ServerPubKey, QueryEscape(cfg.serverPubKey));
    FromNothing(l);
    var d := c.(serverPubKey := cfg.serverPubKey);
    SettingStep(c, [], c, cfg.serverPubKey != "", ServerPubKey, QueryEscape(cfg.serverPubKey), d, env);
    SettingStep(c, l, d, cfg.timeout > 0, Timeout, env.durationText(cfg.timeout), d.(timeout := cfg.timeout), env);
  }

  lemma {:induction false} Leads4(c: Config, cfg: Config, env: Env)
    requires Laws(env) && c.serverPubKey == "" && c.tlsConfig == "" && c.timeout == 0 && c.writeTimeout == 0
    requires c.maxAllowedPacket == DEFAULT_MAX_ALLOWED_PACKET && cfg.timeout >= 0 && cfg.writeTimeout >= 0
    requires TlsAllowed(cfg.tlsConfig, env) && IsBytes(cfg.tlsConfig) && IsBytes(cfg.serverPubKey)
    ensures Leads(c, Settings4(cfg, env),
                  c.(serverPubKey := cfg.serverPubKey, timeout := cfg.timeout, tlsConfig := cfg.tlsConfig,
                     writeTimeout := cfg.writeTimeout, maxAllowedPacket := cfg.maxAllowedPacket), env)
  {
    hide Leads, Opt, ReadBool, ToLower, QueryEscape, QueryUnescape, IsBytes, ReadTls, TlsAllowed;
    if cfg.tlsConfig != "" {
      TlsReads(cfg.tlsConfig, env);
    }
    LeadsKeyAndTimeout(c, cfg, env);
    var l := Opt(cfg.serverPubKey != "", ServerPubKey, QueryEscape(cfg.serverPubKey))
             + Opt(cfg.timeout > 0, Timeout, env.durationText(cfg.timeout));
    var d2 := c.(serverPubKey := cfg.serverPubKey, timeout := cfg.timeout);
    var d3 := d2.(tlsConfig := cfg.tlsConfig);
    SettingStep(c, l, d2, cfg.tlsConfig != "", Tls, QueryEscape(cfg.tlsConfig), d3, env);
    l := l + Opt(cfg.tlsConfig != "", Tls, QueryEscape(cfg.tlsConfig));
    var v4 := env.durationText(cfg.writeTimeout);
    var d4 := d3.(writeTimeout := cfg.writeTimeout);
    SettingStep(c, l, d3, cfg.writeTimeout > 0, WriteTimeout, v4, d4, env);
    l := l + Opt(cfg.writeTimeout > 0, WriteTimeout, v4);
    SettingStep(c, l, d4, cfg.maxAllowedPacket != DEFAULT_MAX_ALLOWED_PACKET, MaxAllowedPacket,
                env.itoa(cfg.maxAllowedPacket), d4.(maxAllowedPacket := cfg.maxAllowedPacket), env);
  }

  /** The part of params whose keys are in order. */
  function Part(params: map<string, string>, order: seq<string>): map<string, string>
    requires forall k | k in order :: k in params
  {
    map k | k in order :: params[k]
  }

  lemma {:induction false} LeadsOthers(c: Config, params: map<string, string>, order: seq<string>, env: Env)
    requires c.params == map[] && (forall k | k in order :: k in params && WellNamed(Other(k)) && IsBytes(params[k]))
    ensures Leads(c, Others(params, order), c.(params := Part(params, order)), env)
  {
    hide Leads, WellNamed, QueryEscape, QueryUnescape, IsBytes;
    if order == [] {
      LeadsNowhere(c, env);
      assert Part(params, order) == map[];
    } else {
      var front, last := order[..|order| - 1], order[|order| - 1];
      assert last in order && forall k | k in front :: k in order;
      LeadsOthers(c, params, front, env);
      var d := c.(params := Part(params, front));
      OtherStep(d, last, params[last], env);
      var e := d.(params := d.params[last := params[last]]);
      LeadsOn(c, Others(params, front), d, [Setting(Other(last), QueryEscape(params[last]))], e, env);
      assert e.params == Part(params, order) by {
        assert forall k :: k in order <==> k in front || k == last;
      }
    }
  }

  lemma {:induction false} OtherStep(d: Config, key: string, value: string, env: Env)
    requires WellNamed(Other(key)) && IsBytes(value)
    ensures Leads(d, [Setting(Other(key), QueryEscape(value))], d.(params := d.params[key := value]), env)
  {
    hide QueryEscape, QueryUnescape, IsBytes, WellNamed;
    EscapedValue(value);
    assert [Setting(Other(key), QueryEscape(value))][1..] == [];
    assert forall x :: ApplyAll(x, [], env) == Ok(x);
  }

  /** What FormatDSN can express. */
  predicate Expressible(cfg: Config)
  {
    && (cfg.user == "" ==> cfg.passwd == "") && cfg.collation != ""
    && cfg.timeout >= 0 && cfg.readTimeout >= 0 && cfg.writeTimeout >= 0
  }

  /** The parameters lead from c, which has what stands in front of them, to cfg. */
  lemma {:induction false} SettingsLead(c: Config, cfg: Config, order: seq<string>, env: Env)
    requires Laws(env) && Lists(order, cfg.params) && Bytes(cfg) && Separable(cfg) && Expressible(cfg)
    requires LocationLoads(cfg.loc, env) && TlsAllowed(cfg.tlsConfig, env)
    requires c == NewConfig().(user := cfg.user, passwd := cfg.passwd, net := cfg.net, addr := cfg.addr)
    ensures Leads(c, AllSettings(cfg, order, env), cfg.(dbName := ""), env)
  {
    MixedEnds(cfg.flags);
    hide Leads, Mixed, Settings1, Settings2, Settings3, Settings4, Others, WellNamed, IsBytes, ReadBool, ToLower,
      TlsAllowed;
    var d1 := c.(flags := Mixed(cfg.flags, 6));
    Leads1(c, cfg, env);
    var d2 := d1.(collation := cfg.collation, loc := cfg.loc, flags := Mixed(cfg.flags, 8));
    Leads2(d1, cfg, env);
    LeadsOn(c, Settings1(cfg), d1, Settings2(cfg), d2, env);
    var d3 := d2.(readTimeout := cfg.readTimeout, flags := cfg.flags);
    Leads3(d2, cfg, env);
    LeadsOn(c, Settings1(cfg) + Settings2(cfg), d2, Settings3(cfg, env), d3, env);
    var d4 := d3.(serverPubKey := cfg.serverPubKey, timeout := cfg.timeout, tlsConfig := cfg.tlsConfig,
                  writeTimeout := cfg.writeTimeout, maxAllowedPacket := cfg.maxAllowedPacket);
    Leads4(d3, cfg, env);
    LeadsOn(c, Settings1(cfg) + Settings2(cfg) + Settings3(cfg, env), d3, Settings4(cfg, env), d4, env);
    LeadsOthers(d4, cfg.params, order, env);
    assert Part(cfg.params, order) == cfg.params;
    LeadsOn(c, Settings1(cfg) + Settings2(cfg) + Settings3(cfg, env) + Settings4(cfg, env), d4,
            Others(cfg.params, order), cfg.(dbName := ""), env);
  }

  /** Before normalize, parsing undoes formatting. */
  lemma {:induction false} BodyRoundTrip(cfg: Config, order: seq<string>, env: Env)
    requires Laws(env) && Lists(order, cfg.params) && Bytes(cfg) && Separable(cfg) && Expressible(cfg)
    requires LocationLoads(cfg.loc, env) && TlsAllowed(cfg.tlsConfig, env) && cfg.net != "" && cfg.addr != ""
    ensures ParseBody(Format(cfg, order, env), env) == Ok(cfg)
  {
    hide AllSettings, Leads, Credentials, Host, ParamText, ParseLeft, ParseRight, WellNamed, LastIndex, Laws, Bytes,
      LocationLoads, TlsAllowed, NewConfig;
    var list := AllSettings(cfg, order, env);
    var c := NewConfig().(user := cfg.user, passwd := cfg.passwd, net := cfg.net, addr := cfg.addr);
    SettingsLead(c, cfg, order, env);
    LeadsToClean(c, list, cfg.(dbName := ""), env);
    ParamTextParses(c, list, env);
    DefaultParts();
    LeftParses(NewConfig(), cfg);
    RightParses(c, cfg.dbName, list, env);
    var left, right := Credentials(cfg) + Host(cfg), cfg.dbName + ParamText(list);
    SlashBetween(left, right, Format(cfg, order, env));
    assert Format(cfg, order, env) == left + ['/'] + right;
  }

  lemma {:induction false} DefaultParts()
    ensures NewConfig().user == "" && NewConfig().passwd == ""
  {}

  lemma {:induction false} LeadsToClean(c: Config, l: seq<Setting>, d: Config, env: Env)
    requires Leads(c, l, d, env)
    ensures AllClean(l) && ApplyAll(c, l, env) == Ok(d)
  {}

  lemma {:induction false} SlashBetween(left: string, right: string, dsn: string)
    requires '/' !in right && dsn == left + ['/'] + right
    ensures LastIndex(dsn, '/') == |left| && dsn[..|left|] == left && dsn[|left| + 1..] == right
  {
    LastIndexIs(left, '/', right);
  }

  // ---- Exactly when --------------------------------------------------------------------------

  /** What every parsed configuration satisfies in its parameters. */
  predicate ParamsSound(c: Config, env: Env)
  {
    && '/' !in c.collation && '&' !in c.collation && LocationLoads(c.loc, env)
    && forall k | k in c.params :: WellNamed(Other(k))
  }

  predicate SameHead(c: Config, d: Config)
  {
    c.user == d.user && c.passwd == d.passwd && c.net == d.net && c.addr == d.addr && c.dbName == d.dbName
  }

  lemma {:induction false} KeysFound(key: string)
    requires NameOf(key).Other? && '/' !in key && '&' !in key && '=' !in key
    ensures NameOf(key) == Other(key) && WellNamed(Other(key))
  {
    hide FlagOf;
  }

  lemma {:induction false} ParamSound(c: Config, n: Name, value: string, env: Env)
    requires Laws(env) && ParamsSound(c, env) && '/' !in value && '&' !in value && (n.Other? ==> WellNamed(n))
    ensures match ApplyParam(c, n, value, env) case Ok(d) => ParamsSound(d, env) && SameHead(c, d) case Err(_) => true
  {
    hide ReadBool, ToLower, WellNamed, QueryUnescape, LocationLoads, ReadTls;
  }

  lemma {:induction false} SegmentSound(c: Config, seg: string, env: Env)
    requires Laws(env) && ParamsSound(c, env) && '/' !in seg && '&' !in seg
    ensures match ParseSegment(c, seg, env) case Ok(d) => ParamsSound(d, env) && SameHead(c, d) case Err(_) => true
  {
    hide Laws, ParamsSound, ApplyParam, NameOf, WellNamed;
    var k := FirstIndex(seg, '=');
    if k < |seg| {
      var key, value := seg[..k], seg[k + 1..];
      if NameOf(key).Other? {
        KeysFound(key);
      }
      ParamSound(c, NameOf(key), value, env);
    }
  }

  lemma {:induction false} SegmentsSound(c: Config, segs: seq<string>, env: Env)
    requires Laws(env) && ParamsSound(c, env) && forall g | g in segs :: '/' !in g && '&' !in g
    ensures match ParseSegments(c, segs, env) case Ok(d) => ParamsSound(d, env) && SameHead(c, d) case Err(_) => true
    decreases |segs|
  {
    hide Laws, ParamsSound, ParseSegment;
    if segs != [] {
      assert segs[0] in segs && forall g | g in segs[1..] :: g in segs;
      SegmentSound(c, segs[0], env);
      var r := ParseSegment(c, segs[0], env);
      if r.Ok? {
        SegmentsSound(r.cfg, segs[1..], env);
      }
    }
  }

  predicate HeadSound(c: Config)
  {
    ':' !in c.user && '@' !in c.net && '(' !in c.net && '@' !in c.addr && '/' !in c.dbName && '?' !in c.dbName
  }

  lemma {:induction false} RightSound(c: Config, right: string, env: Env)
    requires Laws(env) && ParamsSound(c, env) && HeadSound(c) && '/' !in right
    ensures match ParseRight(c, right, env) case Ok(d) => ParamsSound(d, env) && HeadSound(d) case Err(_) => true
  {
    hide Laws, ParseSegments, WellNamed, LocationLoads;
    var j := FirstIndex(right, '?');
    if j < |right| {
      var text := right[j + 1..];
      forall g | g in Split(text, '&')
        ensures '/' !in g && '&' !in g
      {
        SplitParts(text, '&', g);
      }
      SegmentsSound(c, Split(text, '&'), env);
    }
  }

  lemma {:induction false} HostSound(c: Config, text: string)
    requires '@' !in text && ':' !in c.user
    ensures match ParseHost(c, text)
            case Ok(d) =>
              && d == c.(net := d.net, addr := d.addr) && '@' !in d.net && '(' !in d.net
              && ('@' !in c.addr ==> '@' !in d.addr)
            case Err(_) => true
  {}

  lemma {:induction false} CredentialsSound(c: Config, text: string)
    ensures var d := ParseCredentials(c, text);
            d == c.(user := d.user, passwd := d.passwd) && ':' !in d.user
  {}

  /** cred is the part before the last '@', if there is one. */
  lemma {:induction false} LeftPartsSound(c: Config, found: bool, cred: string, host: string, env: Env)
    requires ParamsSound(c, env) && HeadSound(c) && '@' !in host
    ensures match ParseHost(if found then ParseCredentials(c, cred) else c, host)
            case Ok(d) => ParamsSound(d, env) && HeadSound(d)
            case Err(_) => true
  {
    hide ParseHost, ParseCredentials, WellNamed, LocationLoads;
    CredentialsSound(c, cred);
    HostSound(if found then ParseCredentials(c, cred) else c, host);
  }

  lemma {:induction false} LeftSound(c: Config, left: string, env: Env)
    requires ParamsSound(c, env) && HeadSound(c)
    ensures match ParseLeft(c, left) case Ok(d) => ParamsSound(d, env) && HeadSound(d) case Err(_) => true
  {
    hide ParseHost, ParseCredentials, ParamsSound, HeadSound, LastIndex;
    if left != "" {
      var j := LastIndex(left, '@');
      var cred, host := if j >= 0 then left[..j] else "", left[j + 1..];
      NoneBehindLast(left, '@');
      LeftPartsSound(c, j >= 0, cred, host, env);
    }
  }

  lemma {:induction false} DefaultSound(env: Env)
    ensures ParamsSound(NewConfig(), env) && HeadSound(NewConfig())
  {}

  lemma {:induction false} HalvesSound(left: string, right: string, env: Env)
    requires Laws(env) && '/' !in right
    ensures match ParseHalves(left, right, env) case Ok(d) => ParamsSound(d, env) && HeadSound(d) case Err(_) => true
  {
    hide Laws, ParamsSound, HeadSound, ParseLeft, ParseRight, NewConfig;
    DefaultSound(env);
    LeftSound(NewConfig(), left, env);
    var r := ParseLeft(NewConfig(), left);
    if r.Ok? {
      RightSound(r.cfg, right, env);
    }
  }

  /** The halves that ParseBody takes a DSN apart into. */
  lemma {:induction false} BodyHalves(dsn: string, env: Env) returns (halved: bool, left: string, right: string)
    ensures if halved then '/' !in right && ParseBody(dsn, env) == ParseHalves(left, right, env)
            else ParseBody(dsn, env) == Ok(NewConfig()) || ParseBody(dsn, env) == Err(NoSlash)
  {
    hide ParseHalves, NewConfig;
    var i := LastIndex(dsn, '/');
    if i < 0 {
      return false, "", "";
    }
    NoneBehindLast(dsn, '/');
    return true, dsn[..i], dsn[i + 1..];
  }

  lemma {:induction false} BodySound(dsn: string, env: Env)
    requires Laws(env)
    ensures match ParseBody(dsn, env) case Ok(d) => ParamsSound(d, env) && HeadSound(d) case Err(_) => true
  {
    hide Laws, ParamsSound, HeadSound, ParseBody, ParseHalves, NewConfig;
    DefaultSound(env);
    var halved, left, right := BodyHalves(dsn, env);
    if halved {
      HalvesSound(left, right, env);
    }
  }

  lemma {:induction false} AddrFills(c: Config, d: Config, env: Env)
    requires NormalizeAddr(c, env) == Ok(d)
    ensures d == c.(net := d.net, addr := d.addr) && d.net != "" && d.addr != ""
    ensures d.net == if c.net == "" then "tcp" else c.net
    ensures d.addr == c.addr || d.addr == "127.0.0.1:3306" || d.addr == "/tmp/mycpool.sock"
            || d.addr == JoinHostPort(c.addr)
  {}

  lemma {:induction false} JoinedAddr(addr: string)
    requires '@' !in addr
    ensures '@' !in JoinHostPort(addr)
  {}

  lemma {:induction false} DefaultAddrs()
    ensures '@' !in "127.0.0.1:3306" && '@' !in "/tmp/mycpool.sock" && '@' !in "tcp" && '(' !in "tcp"
  {}

  /** normalize fills in the network and the address, and nothing else. */
  lemma {:induction false} NormalizeFills(c: Config, d: Config, env: Env)
    requires Normalize(c, env) == Ok(d)
    ensures d == c.(net := d.net, addr := d.addr) && d.net != "" && d.addr != "" && TlsAllowed(d.tlsConfig, env)
    ensures ('@' !in c.net && '(' !in c.net ==> '@' !in d.net && '(' !in d.net) && ('@' !in c.addr ==> '@' !in d.addr)
  {
    hide TlsAllowed, NormalizeAddr, JoinHostPort;
    AddrFills(c, d, env);
    DefaultAddrs();
    if '@' !in c.addr {
      JoinedAddr(c.addr);
    }
  }

  /** Every parsed configuration keeps the separators apart, and its location loads. */
  lemma {:induction false} ParsedIsSeparable(dsn: string, cfg: Config, env: Env)
    requires Laws(env) && Parse(dsn, env) == Ok(cfg)
    ensures Separable(cfg) && LocationLoads(cfg.loc, env) && cfg.net != "" && cfg.addr != ""
            && TlsAllowed(cfg.tlsConfig, env)
  {
    hide ParseBody, Normalize, WellNamed, LocationLoads, Laws, TlsAllowed;
    BodySound(dsn, env);
    NormalizeFills(ParseBody(dsn, env).cfg, cfg, env);
  }

  /** cfg without what FormatDSN drops. */
  function Fixed(cfg: Config): Config
  {
    cfg.(passwd := if cfg.user == "" then "" else cfg.passwd,
         collation := if cfg.collation == "" then DEFAULT_COLLATION else cfg.collation,
         timeout := if cfg.timeout < 0 then 0 else cfg.timeout,
         readTimeout := if cfg.readTimeout < 0 then 0 else cfg.readTimeout,
         writeTimeout := if cfg.writeTimeout < 0 then 0 else cfg.writeTimeout)
  }

  lemma {:induction false} FixedFormat(cfg: Config, order: seq<string>, env: Env)
    requires forall k | k in order :: k in cfg.params
    ensures Format(Fixed(cfg), order, env) == Format(cfg, order, env)
  {
    hide OptFlag, ParamText, Others, QueryEscape;
    var f := Fixed(cfg);
    assert Credentials(f) == Credentials(cfg) && Host(f) == Host(cfg);
    FixedFlags(cfg);
    assert Settings2(f) == Settings2(cfg);
    assert Settings3(f, env) == Settings3(cfg, env);
    assert Settings4(f, env) == Settings4(cfg, env);
  }

  lemma {:induction false} FixedFlags(cfg: Config)
    ensures forall f :: OptFlag(Fixed(cfg), f) == OptFlag(cfg, f)
    ensures Settings1(Fixed(cfg)) == Settings1(cfg)
  {}

  lemma {:induction false} DefaultCollationClean()
    ensures '/' !in DEFAULT_COLLATION && '&' !in DEFAULT_COLLATION && DEFAULT_COLLATION != ""
  {}

  lemma {:induction false} FixedSeparable(cfg: Config)
    requires Separable(cfg)
    ensures Separable(Fixed(cfg)) && Expressible(Fixed(cfg))
  {
    hide WellNamed;
    DefaultCollationClean();
    var f := Fixed(cfg);
    assert f.params == cfg.params && (f.collation == cfg.collation || f.collation == DEFAULT_COLLATION);
  }

  /** The configurations that a DSN can carry. */
  predicate Canonical(cfg: Config, env: Env)
  {
    Separable(cfg) && Expressible(cfg) && LocationLoads(cfg.loc, env) && Normalize(cfg, env) == Ok(cfg)
  }

  /** ParseDSN undoes FormatDSN exactly on the canonical configurations: normalised, with the
      separators kept apart and nothing that FormatDSN drops. Passwords, users and addresses may
      hold slashes, at signs and parentheses as far as Separable allows. */
  lemma {:induction false} ParseUndoesFormat(cfg: Config, order: seq<string>, env: Env)
    requires Laws(env) && Bytes(cfg) && Lists(order, cfg.params)
    ensures Parse(Format(cfg, order, env), env) == Ok(cfg) <==> Canonical(cfg, env)
  {
    hide Laws, Bytes, Separable, LocationLoads, Normalize, ParseBody, Format, TlsAllowed;
    if Canonical(cfg, env) {
      NormalizeFills(cfg, cfg, env);
      BodyRoundTrip(cfg, order, env);
    }
    if Parse(Format(cfg, order, env), env) == Ok(cfg) {
      ParsedIsSeparable(Format(cfg, order, env), cfg, env);
      FixedFormat(cfg, order, env);
      FixedSeparable(cfg);
      FixedBytes(cfg);
      BodyRoundTrip(Fixed(cfg), order, env);
      NormalizeFills(Fixed(cfg), cfg, env);
      assert Fixed(cfg) == cfg;
    }
  }

  /** A password without a user is not written, so the DSN reads back without it. */
  lemma {:induction false} PasswordWithoutUserExample(env: Env)
    requires Laws(env)
    ensures var cfg := NewConfig().(net := "unix", addr := "/s", passwd := "p");
            && Lists([], cfg.params) && Bytes(cfg) && !Canonical(cfg, env)
            && Parse(Format(cfg, [], env), env) == Ok(cfg.(passwd := ""))
  {
    hide Parse, Format, Laws;
    var cfg := NewConfig().(net := "unix", addr := "/s", passwd := "p");
    assert Fixed(cfg) == cfg.(passwd := "");
    FixedFormat(cfg, [], env);
    DefaultCollationClean();
    ParseUndoesFormat(Fixed(cfg), [], env);
  }

  lemma {:induction false} FixedBytes(cfg: Config)
    requires Bytes(cfg)
    ensures Bytes(Fixed(cfg))
  {}

  /** A configuration that came from a DSN survives formatting and parsing exactly if FormatDSN
      drops nothing of it and it is normalised already. */
  lemma {:induction false} ReparsedConfig(dsn: string, cfg: Config, order: seq<string>, env: Env)
    requires Laws(env) && Parse(dsn, env) == Ok(cfg) && Bytes(cfg) && Lists(order, cfg.params)
    ensures Parse(Format(cfg, order, env), env) == Ok(cfg) <==> Expressible(cfg) && Normalize(cfg, env) == Ok(cfg)
  {
    hide Laws, Bytes, Separable, LocationLoads, Normalize, ParseBody, Format, TlsAllowed, Parse;
    ParsedIsSeparable(dsn, cfg, env);
    ParseUndoesFormat(cfg, order, env);
  }
}
