// Data source names (mysql/dsn.go: FormatDSN, writeDSNParam, ParseDSN, parseDSNParams,
// normalize). Durations, locations, integers, host:port splitting and the registries of the
// driver are library or program state: Env holds them as functions.
module Dsn {
  import opened DsnText

  /** A *time.Location: nil, time.UTC itself, or another one with its name. */
  datatype Location = NilLoc | Utc | Zone(name: string)

  datatype Env = Env(
    itoa: int -> string,
    atoi: string -> Option<int>,
    durationText: int -> string,
    parseDuration: string -> Option<int>,
    loadLocation: string -> Option<Location>,
    splitsHostPort: string -> bool,
    tlsKnown: string -> bool,
    keyKnown: string -> bool,
    unsafeCollation: string -> bool)

  /** flags holds the boolean fields that are true. cfg.tls and cfg.pubKey, which normalize
      derives, are left out. Without parameters params is the empty map, which stands for nil. */
  datatype Config = Config(
    user: string, passwd: string, net: string, addr: string, dbName: string,
    params: map<string, string>, collation: string, loc: Location, maxAllowedPacket: int,
    serverPubKey: string, tlsConfig: string, timeout: int, readTimeout: int, writeTimeout: int,
    flags: set<Flag>)

  const DEFAULT_COLLATION := "utf8mb4_general_ci"
  const DEFAULT_MAX_ALLOWED_PACKET: int := 4194304

  function NewConfig(): Config
  {
    Config("", "", "", "", "", map[], DEFAULT_COLLATION, Utc, DEFAULT_MAX_ALLOWED_PACKET, "", "", 0, 0, 0,
           {AllowNativePasswords, CheckConnLiveness})
  }

  datatype Flag =
    | AllowAllFiles | AllowCleartextPasswords | AllowNativePasswords | AllowOldPasswords | CheckConnLiveness
    | ClientFoundRows | ColumnsWithAlias | InterpolateParams | MultiStatements | ParseTime | RejectReadOnly

  datatype Name =
    | Bool(f: Flag) | Collation | Compress | Loc | ReadTimeout | ServerPubKey | Strict | Timeout | Tls | WriteTimeout
    | MaxAllowedPacket | Other(s: string)

  function FlagText(f: Flag): string
  {
    match f
    case AllowAllFiles => "allowAllFiles"
    case AllowCleartextPasswords => "allowCleartextPasswords"
    case AllowNativePasswords => "allowNativePasswords"
    case AllowOldPasswords => "allowOldPasswords"
    case CheckConnLiveness => "checkConnLiveness"
    case ClientFoundRows => "clientFoundRows"
    case ColumnsWithAlias => "columnsWithAlias"
    case InterpolateParams => "interpolateParams"
    case MultiStatements => "multiStatements"
    case ParseTime => "parseTime"
    case RejectReadOnly => "rejectReadOnly"
  }

  function NameText(n: Name): string
  {
    match n
    case Bool(f) => FlagText(f)
    case Collation => "collation"
    case Compress => "compress"
    case Loc => "loc"
    case ReadTimeout => "readTimeout"
    case ServerPubKey => "serverPubKey"
    case Strict => "strict"
    case Timeout => "timeout"
    case Tls => "tls"
    case WriteTimeout => "writeTimeout"
    case MaxAllowedPacket => "maxAllowedPacket"
    case Other(s) => s
  }

  function FlagOf(s: string): Option<Flag>
  {
    if s == "allowAllFiles" then Some(AllowAllFiles)
    else if s == "allowCleartextPasswords" then Some(AllowCleartextPasswords)
    else if s == "allowNativePasswords" then Some(AllowNativePasswords)
    else if s == "allowOldPasswords" then Some(AllowOldPasswords)
    else if s == "checkConnLiveness" then Some(CheckConnLiveness)
    else if s == "clientFoundRows" then Some(ClientFoundRows)
    else if s == "columnsWithAlias" then Some(ColumnsWithAlias)
    else if s == "interpolateParams" then Some(InterpolateParams)
    else if s == "multiStatements" then Some(MultiStatements)
    else if s == "parseTime" then Some(ParseTime)
    else if s == "rejectReadOnly" then Some(RejectReadOnly)
    else None
  }

  /** The cases of the switch in parseDSNParams. */
  function NameOf(s: string): Name
  {
    match FlagOf(s)
    case Some(f) => Bool(f)
    case None =>
      if s == "collation" then Collation
      else if s == "compress" then Compress
      else if s == "loc" then Loc
      else if s == "readTimeout" then ReadTimeout
      else if s == "serverPubKey" then ServerPubKey
      else if s == "strict" then Strict
      else if s == "timeout" then Timeout
      else if s == "tls" then Tls
      else if s == "writeTimeout" then WriteTimeout
      else if s == "maxAllowedPacket" then MaxAllowedPacket
      else Other(s)
  }

  predicate DefaultFlag(f: Flag)
  {
    f == AllowNativePasswords || f == CheckConnLiveness
  }

  function SetFlag(c: Config, f: Flag, b: bool): Config
  {
    c.(flags := if b then c.flags + {f} else c.flags - {f})
  }

  // ---- Printing ------------------------------------------------------------------------------

  datatype Setting = Setting(n: Name, value: string)

  function SettingText(x: Setting): string
  {
    NameText(x.n) + "=" + x.value
  }

  function SettingTexts(list: seq<Setting>): (ts: seq<string>)
    ensures |ts| == |list|
  {
    if list == [] then [] else SettingTexts(list[..|list| - 1]) + [SettingText(list[|list| - 1])]
  }

  function ParamText(list: seq<Setting>): string
  {
    if list == [] then "" else "?" + Join(SettingTexts(list), '&')
  }

  function BoolText(b: bool): string
  {
    if b then "true" else "false"
  }

  function Opt(b: bool, n: Name, value: string): seq<Setting>
  {
    if b then [Setting(n, value)] else []
  }

  /** A flag that differs from its default. */
  function OptFlag(cfg: Config, f: Flag): seq<Setting>
  {
    Opt((f in cfg.flags) != DefaultFlag(f), Bool(f), BoolText(f in cfg.flags))
  }

  function LocText(l: Location): string
  {
    if l.Zone? then l.name else "UTC"
  }

  function Settings1(cfg: Config): seq<Setting>
  {
    OptFlag(cfg, AllowAllFiles) + OptFlag(cfg, AllowCleartextPasswords) + OptFlag(cfg, AllowNativePasswords)
    + OptFlag(cfg, AllowOldPasswords) + OptFlag(cfg, CheckConnLiveness) + OptFlag(cfg, ClientFoundRows)
  }

  function Settings2(cfg: Config): seq<Setting>
  {
    Opt(cfg.collation != DEFAULT_COLLATION && cfg.collation != "", Collation, cfg.collation)
    + OptFlag(cfg, ColumnsWithAlias) + OptFlag(cfg, InterpolateParams)
    + Opt(cfg.loc != Utc && cfg.loc != NilLoc, Loc, QueryEscape(LocText(cfg.loc)))
  }

  function Settings3(cfg: Config, env: Env): seq<Setting>
  {
    OptFlag(cfg, MultiStatements) + OptFlag(cfg, ParseTime)
    + Opt(cfg.readTimeout > 0, ReadTimeout, env.durationText(cfg.readTimeout)) + OptFlag(cfg, RejectReadOnly)
  }

  function Settings4(cfg: Config, env: Env): seq<Setting>
  {
    Opt(cfg.serverPubKey != "", ServerPubKey, QueryEscape(cfg.serverPubKey))
    + Opt(cfg.timeout > 0, Timeout, env.durationText(cfg.timeout))
    + Opt(cfg.tlsConfig != "", Tls, QueryEscape(cfg.tlsConfig))
    + Opt(cfg.writeTimeout > 0, WriteTimeout, env.durationText(cfg.writeTimeout))
    + Opt(cfg.maxAllowedPacket != DEFAULT_MAX_ALLOWED_PACKET, MaxAllowedPacket, env.itoa(cfg.maxAllowedPacket))
  }

  /** order is the sorted list of the keys of params. */
  function Others(params: map<string, string>, order: seq<string>): seq<Setting>
    requires forall k | k in order :: k in params
  {
    if order == [] then []
    else
      var last := order[|order| - 1];
      assert last in order && forall k | k in order[..|order| - 1] :: k in order;
      Others(params, order[..|order| - 1]) + [Setting(Other(last), QueryEscape(params[last]))]
  }

  function AllSettings(cfg: Config, order: seq<string>, env: Env): seq<Setting>
    requires forall k | k in order :: k in cfg.params
  {
    Settings1(cfg) + Settings2(cfg) + Settings3(cfg, env) + Settings4(cfg, env) + Others(cfg.params, order)
  }

  function Credentials(cfg: Config): string
  {
    if cfg.user == "" then "" else cfg.user + (if cfg.passwd == "" then "" else ":" + cfg.passwd) + "@"
  }

  function Host(cfg: Config): string
  {
    if cfg.net == "" then "" else cfg.net + if cfg.addr == "" then "" else "(" + cfg.addr + ")"
  }

  function Head(cfg: Config): string
  {
    Credentials(cfg) + Host(cfg) + "/" + cfg.dbName
  }

  function Format(cfg: Config, order: seq<string>, env: Env): string
    requires forall k | k in order :: k in cfg.params
  {
    Head(cfg) + ParamText(AllSettings(cfg, order, env))
  }

  /** order lists every key of params once (sort.Strings puts them in order). */
  ghost predicate Lists(order: seq<string>, params: map<string, string>)
  {
    && (forall k :: k in order <==> k in params)
    && (forall i, j | 0 <= i < j < |order| :: order[i] != order[j])
  }

  /** What has been written: head, and the parameters in list. */
  ghost predicate Holds(buf: string, hasParam: bool, head: string, list: seq<Setting>)
  {
    buf == head + ParamText(list) && hasParam == (list != [])
  }

  lemma {:induction false} ParamTextSnoc(list: seq<Setting>, x: Setting)
    ensures ParamText(list + [x]) == ParamText(list) + (if list == [] then "?" else "&") + SettingText(x)
  {
    hide SettingText, Join;
    assert (list + [x])[..|list|] == list;
    var ts, t := SettingTexts(list), SettingText(x);
    assert SettingTexts(list + [x]) == ts + [t];
    if list == [] {
      assert ts + [t] == [t];
      JoinOne(t, '&');
    } else {
      JoinSnoc(ts, t, '&');
      Regroup("?", Join(ts, '&'), "&", t);
    }
  }

  lemma {:induction false} JoinOne(t: string, sep: char)
    ensures Join([t], sep) == t
  {}

  lemma {:induction false} Regroup(a: string, b: string, c: string, d: string)
    ensures a + (b + c + d) == a + b + c + d
  {}

  method WriteDSNParam(buf: string, hasParam: bool, n: Name, value: string, ghost head: string,
      ghost list: seq<Setting>)
    returns (buf': string, hasParam': bool)
    requires Holds(buf, hasParam, head, list)
    ensures Holds(buf', hasParam', head, list + [Setting(n, value)])
  {
    hide NameText, ParamText;
    buf' := buf + (if !hasParam then "?" else "&");
    hasParam' := true;
    buf' := buf' + NameText(n);
    buf' := buf' + "=";
    buf' := buf' + value;
    ParamTextSnoc(list, Setting(n, value));
    ghost var mark, p, t := if !hasParam then "?" else "&", ParamText(list), NameText(n);
    assert head + p + mark + t + "=" + value == head + (p + mark + (t + "=" + value));
  }

  /** One optional parameter. */
  method WriteOpt(buf: string, hasParam: bool, write: bool, n: Name, value: string, ghost head: string,
      ghost list: seq<Setting>)
    returns (buf': string, hasParam': bool)
    requires Holds(buf, hasParam, head, list)
    ensures Holds(buf', hasParam', head, list + Opt(write, n, value))
  {
    hide ParamText;
    buf', hasParam' := buf, hasParam;
    if write {
      buf', hasParam' := WriteDSNParam(buf, hasParam, n, value, head, list);
    } else {
      assert list + [] == list;
    }
  }

  method WriteFlag(cfg: Config, f: Flag, buf: string, hasParam: bool, ghost head: string, ghost list: seq<Setting>)
    returns (buf': string, hasParam': bool)
    requires Holds(buf, hasParam, head, list)
    ensures Holds(buf', hasParam', head, list + OptFlag(cfg, f))
  {
    hide Holds, Opt, BoolText;
    var b := f in cfg.flags;
    buf', hasParam' := WriteOpt(buf, hasParam, b != DefaultFlag(f), Bool(f), BoolText(b), head, list);
  }

  lemma {:induction false} Append5(l: seq<Setting>, a: seq<Setting>, b: seq<Setting>, c: seq<Setting>, d: seq<Setting>,
      e: seq<Setting>)
    ensures l + a + b + c + d + e == l + (a + b + c + d + e)
  {}

  method Write1(cfg: Config, buf: string, hasParam: bool, ghost head: string, ghost list: seq<Setting>)
    returns (b: string, p: bool)
    requires Holds(buf, hasParam, head, list)
    ensures Holds(b, p, head, list + Settings1(cfg))
  {
    hide Holds, OptFlag;
    ghost var l := list;
    b, p := WriteFlag(cfg, AllowAllFiles, buf, hasParam, head, l);
    l := l + OptFlag(cfg, AllowAllFiles);
    b, p := WriteFlag(cfg, AllowCleartextPasswords, b, p, head, l);
    l := l + OptFlag(cfg, AllowCleartextPasswords);
    b, p := WriteFlag(cfg, AllowNativePasswords, b, p, head, l);
    l := l + OptFlag(cfg, AllowNativePasswords);
    b, p := WriteFlag(cfg, AllowOldPasswords, b, p, head, l);
    l := l + OptFlag(cfg, AllowOldPasswords);
    b, p := WriteFlag(cfg, CheckConnLiveness, b, p, head, l);
    l := l + OptFlag(cfg, CheckConnLiveness);
    b, p := WriteFlag(cfg, ClientFoundRows, b, p, head, l);
    l := l + OptFlag(cfg, ClientFoundRows);
    assert l == list + Settings1(cfg);
  }

  method Write2(cfg: Config, buf: string, hasParam: bool, ghost head: string, ghost list: seq<Setting>)
    returns (b: string, p: bool)
    requires Holds(buf, hasParam, head, list)
    ensures Holds(b, p, head, list + Settings2(cfg))
  {
    hide Holds, OptFlag, Opt, QueryEscape, LocText;
    ghost var l := list;
    var col := cfg.collation != DEFAULT_COLLATION && cfg.collation != "";
    b, p := WriteOpt(buf, hasParam, col, Collation, cfg.collation, head, l);
    l := l + Opt(col, Collation, cfg.collation);
    b, p := WriteFlag(cfg, ColumnsWithAlias, b, p, head, l);
    l := l + OptFlag(cfg, ColumnsWithAlias);
    b, p := WriteFlag(cfg, InterpolateParams, b, p, head, l);
    l := l + OptFlag(cfg, InterpolateParams);
    var loc := cfg.loc != Utc && cfg.loc != NilLoc;
    b, p := WriteOpt(b, p, loc, Loc, QueryEscape(LocText(cfg.loc)), head, l);
    l := l + Opt(loc, Loc, QueryEscape(LocText(cfg.loc)));
    assert l == list + Settings2(cfg);
  }

  method Write3(cfg: Config, env: Env, buf: string, hasParam: bool, ghost head: string, ghost list: seq<Setting>)
    returns (b: string, p: bool)
    requires Holds(buf, hasParam, head, list)
    ensures Holds(b, p, head, list + Settings3(cfg, env))
  {
    hide Holds, OptFlag, Opt;
    ghost var l := list;
    b, p := WriteFlag(cfg, MultiStatements, buf, hasParam, head, l);
    l := l + OptFlag(cfg, MultiStatements);
    b, p := WriteFlag(cfg, ParseTime, b, p, head, l);
    l := l + OptFlag(cfg, ParseTime);
    b, p := WriteOpt(b, p, cfg.readTimeout > 0, ReadTimeout, env.durationText(cfg.readTimeout), head, l);
    l := l + Opt(cfg.readTimeout > 0, ReadTimeout, env.durationText(cfg.readTimeout));
    b, p := WriteFlag(cfg, RejectReadOnly, b, p, head, l);
    l := l + OptFlag(cfg, RejectReadOnly);
    assert l == list + Settings3(cfg, env);
  }

  method Write4(cfg: Config, env: Env, buf: string, hasParam: bool, ghost head: string, ghost list: seq<Setting>)
    returns (b: string, p: bool)
    requires Holds(buf, hasParam, head, list)
    ensures Holds(b, p, head, list + Settings4(cfg, env))
  {
    hide Holds, Opt, QueryEscape;
    ghost var x1 := Opt(cfg.serverPubKey != "", ServerPubKey, QueryEscape(cfg.serverPubKey));
    ghost var x2 := Opt(cfg.timeout > 0, Timeout, env.durationText(cfg.timeout));
    ghost var x3 := Opt(cfg.tlsConfig != "", Tls, QueryEscape(cfg.tlsConfig));
    ghost var x4 := Opt(cfg.writeTimeout > 0, WriteTimeout, env.durationText(cfg.writeTimeout));
    var max := cfg.maxAllowedPacket != DEFAULT_MAX_ALLOWED_PACKET;
    ghost var x5 := Opt(max, MaxAllowedPacket, env.itoa(cfg.maxAllowedPacket));
    Append5(list, x1, x2, x3, x4, x5);
    b, p := WriteOpt(buf, hasParam, cfg.serverPubKey != "", ServerPubKey, QueryEscape(cfg.serverPubKey), head, list);
    b, p := WriteOpt(b, p, cfg.timeout > 0, Timeout, env.durationText(cfg.timeout), head, list + x1);
    b, p := WriteOpt(b, p, cfg.tlsConfig != "", Tls, QueryEscape(cfg.tlsConfig), head, list + x1 + x2);
    b, p := WriteOpt(b, p, cfg.writeTimeout > 0, WriteTimeout, env.durationText(cfg.writeTimeout), head,
      list + x1 + x2 + x3);
    b, p := WriteOpt(b, p, max, MaxAllowedPacket, env.itoa(cfg.maxAllowedPacket), head, list + x1 + x2 + x3 + x4);
  }

  /** The loop over the sorted keys. */
  method WriteOthers(params: map<string, string>, order: seq<string>, buf: string, hasParam: bool, ghost head: string,
      ghost list: seq<Setting>)
    returns (b: string, p: bool)
    requires Holds(buf, hasParam, head, list) && forall k | k in order :: k in params
    ensures Holds(b, p, head, list + Others(params, order))
  {
    hide Holds, QueryEscape;
    b, p := buf, hasParam;
    assert list + [] == list;
    for i := 0 to |order|
      invariant Holds(b, p, head, list + Others(params, order[..i]))
    {
      var k := order[i];
      assert order[..i + 1][..i] == order[..i];
      ghost var l := list + Others(params, order[..i]);
      b, p := WriteDSNParam(b, p, Other(k), QueryEscape(params[k]), head, l);
      assert l + [Setting(Other(k), QueryEscape(params[k]))] == list + Others(params, order[..i + 1]);
    }
    assert order[..|order|] == order;
  }

  method WriteHead(cfg: Config) returns (buf: string)
    ensures buf == Head(cfg)
  {
    buf := "";
    if |cfg.user| > 0 {
      buf := buf + cfg.user;
      if |cfg.passwd| > 0 {
        buf := buf + ":" + cfg.passwd;
      }
      buf := buf + "@";
    }
    ghost var credentials := buf;
    assert credentials == Credentials(cfg);
    if |cfg.net| > 0 {
      buf := buf + cfg.net;
      if |cfg.addr| > 0 {
        buf := buf + "(" + cfg.addr + ")";
      }
    }
    hide Credentials;
    assert buf == credentials + Host(cfg);
    hide Host;
    buf := buf + "/" + cfg.dbName;
  }

  method FormatDSN(cfg: Config, order: seq<string>, env: Env) returns (dsn: string)
    requires Lists(order, cfg.params)
    ensures dsn == Format(cfg, order, env)
  {
    hide Settings1, Settings2, Settings3, Settings4, Others, Head, Holds;
    var buf := WriteHead(cfg);
    ghost var head := Head(cfg);
    var hasParam := false;
    NothingHeld(head);
    buf, hasParam := Write1(cfg, buf, hasParam, head, []);
    assert [] + Settings1(cfg) == Settings1(cfg);
    buf, hasParam := Write2(cfg, buf, hasParam, head, Settings1(cfg));
    buf, hasParam := Write3(cfg, env, buf, hasParam, head, Settings1(cfg) + Settings2(cfg));
    buf, hasParam := Write4(cfg, env, buf, hasParam, head, Settings1(cfg) + Settings2(cfg) + Settings3(cfg, env));
    buf, hasParam := WriteOthers(cfg.params, order, buf, hasParam, head,
                                 Settings1(cfg) + Settings2(cfg) + Settings3(cfg, env) + Settings4(cfg, env));
    HeldText(buf, hasParam, head, AllSettings(cfg, order, env));
    dsn := buf;
  }

  lemma {:induction false} NothingHeld(head: string)
    ensures Holds(head, false, head, [])
  {
    assert head + "" == head;
  }

  lemma {:induction false} HeldText(buf: string, hasParam: bool, head: string, list: seq<Setting>)
    requires Holds(buf, hasParam, head, list)
    ensures buf == head + ParamText(list)
  {}

  // ---- Parsing -------------------------------------------------------------------------------

  datatype DsnError =
    | Unescaped | AddrNotTerminated | NoSlash | UnsafeCollation
    | BadBool | NoCompression | BadEscape | BadLocation | BadDuration | BadNumber
    | UnknownAddr | UnknownTls | UnknownKey
    | StrictPanic                       // "strict mode has been removed"

  datatype Parsed = Ok(cfg: Config) | Err(e: DsnError)

  function ReadBool(s: string): Option<bool>
  {
    if s == "1" || s == "true" || s == "TRUE" || s == "True" then Some(true)
    else if s == "0" || s == "false" || s == "FALSE" || s == "False" then Some(false)
    else None
  }

  /** strings.ToLower on ASCII letters. */
  function ToLower(s: string): string
  {
    if s == "" then "" else [if 'A' <= s[0] <= 'Z' then (s[0] as int + 32) as char else s[0]] + ToLower(s[1..])
  }

  /** The tls parameter: a boolean, one of two modes in any case, or the name of a configuration. */
  function ReadTls(value: string): Option<string>
  {
    match ReadBool(value)
    case Some(b) => Some(BoolText(b))
    case None =>
      var vl := ToLower(value);
      if vl == "skip-verify" || vl == "preferred" then Some(vl) else QueryUnescape(value)
  }

  /** One case of the switch. */
  function ApplyParam(c: Config, n: Name, value: string, env: Env): Parsed
  {
    match n
    case Bool(f) => (match ReadBool(value) case Some(b) => Ok(SetFlag(c, f, b)) case None => Err(BadBool))
    case Collation => Ok(c.(collation := value))
    case Compress => Err(NoCompression)
    case Loc =>
      (match QueryUnescape(value)
       case None => Err(BadEscape)
       case Some(v) => (match env.loadLocation(v) case Some(l) => Ok(c.(loc := l)) case None => Err(BadLocation)))
    case ReadTimeout =>
      (match env.parseDuration(value)
       case Some(d) => Ok(c.(readTimeout := d))
       case None => Err(BadDuration))
    case ServerPubKey =>
      (match QueryUnescape(value)
       case Some(v) => Ok(c.(serverPubKey := v))
       case None => Err(BadEscape))
    case Strict => Err(StrictPanic)
    case Timeout => (match env.parseDuration(value) case Some(d) => Ok(c.(timeout := d)) case None => Err(BadDuration))
    case Tls => (match ReadTls(value) case Some(v) => Ok(c.(tlsConfig := v)) case None => Err(BadEscape))
    case WriteTimeout =>
      (match env.parseDuration(value)
       case Some(d) => Ok(c.(writeTimeout := d))
       case None => Err(BadDuration))
    case MaxAllowedPacket =>
      (match env.atoi(value)
       case Some(i) => Ok(c.(maxAllowedPacket := i))
       case None => Err(BadNumber))
    case Other(key) =>
      (match QueryUnescape(value)
       case Some(v) => Ok(c.(params := c.params[key := v]))
       case None => Err(BadEscape))
  }

  /** One part between '&'s; a part without '=' is skipped. */
  function ParseSegment(c: Config, seg: string, env: Env): Parsed
  {
    var k := FirstIndex(seg, '=');
    if k == |seg| then Ok(c) else ApplyParam(c, NameOf(seg[..k]), seg[k + 1..], env)
  }

  function ParseSegments(c: Config, segs: seq<string>, env: Env): Parsed
    decreases |segs|
  {
    if segs == [] then Ok(c)
    else match ParseSegment(c, segs[0], env)
         case Ok(d) => ParseSegments(d, segs[1..], env)
         case Err(e) => Err(e)
  }

  function ParseParams(c: Config, params: string, env: Env): Parsed
  {
    ParseSegments(c, Split(params, '&'), env)
  }

  /** [user[:password]@][net[(addr)]]: up to the last '@', and behind it. */
  function ParseCredentials(c: Config, text: string): Config
  {
    var k := FirstIndex(text, ':');
    if k < |text| then c.(user := text[..k], passwd := text[k + 1..]) else c.(user := text)
  }

  function ParseHost(c: Config, text: string): Parsed
  {
    var k := FirstIndex(text, '(');
    if k == |text| then Ok(c.(net := text))
    else if text[|text| - 1] != ')' then Err(if ')' in text[k + 1..] then Unescaped else AddrNotTerminated)
    else Ok(c.(net := text[..k], addr := text[k + 1..|text| - 1]))
  }

  function ParseLeft(c: Config, left: string): Parsed
  {
    if left == "" then Ok(c)
    else
      var j := LastIndex(left, '@');
      ParseHost(if j >= 0 then ParseCredentials(c, left[..j]) else c, left[j + 1..])
  }

  /** dbname[?params]. */
  function ParseRight(c: Config, right: string, env: Env): Parsed
  {
    var j := FirstIndex(right, '?');
    match if j < |right| then ParseParams(c, right[j + 1..], env) else Ok(c)
    case Ok(d) => Ok(d.(dbName := right[..j]))
    case Err(e) => Err(e)
  }

  /** net.JoinHostPort(addr, "3306"). */
  function JoinHostPort(addr: string): string
  {
    if ':' in addr then "[" + addr + "]:3306" else addr + ":3306"
  }

  function NormalizeAddr(c: Config, env: Env): Parsed
  {
    var d := if c.net == "" then c.(net := "tcp") else c;
    if d.addr == "" then
      if d.net == "tcp" then Ok(d.(addr := "127.0.0.1:3306"))
      else if d.net == "unix" then Ok(d.(addr := "/tmp/mycpool.sock"))
      else Err(UnknownAddr)
    else if d.net == "tcp" && !env.splitsHostPort(d.addr) then Ok(d.(addr := JoinHostPort(d.addr)))
    else Ok(d)
  }

  predicate TlsAllowed(name: string, env: Env)
  {
    name == "false" || name == "" || name == "true" || name == "skip-verify" || name == "preferred"
      || env.tlsKnown(name)
  }

  function Normalize(c: Config, env: Env): Parsed
  {
    if InterpolateParams in c.flags && env.unsafeCollation(c.collation) then Err(UnsafeCollation)
    else match NormalizeAddr(c, env)
         case Err(e) => Err(e)
         case Ok(d) =>
           if !TlsAllowed(d.tlsConfig, env) then Err(UnknownTls)
           else if d.serverPubKey != "" && !env.keyKnown(d.serverPubKey) then Err(UnknownKey)
           else Ok(d)
  }

  function ParseHalves(left: string, right: string, env: Env): Parsed
  {
    match ParseLeft(NewConfig(), left)
    case Err(e) => Err(e)
    case Ok(c) => ParseRight(c, right, env)
  }

  function ParseBody(dsn: string, env: Env): Parsed
  {
    var i := LastIndex(dsn, '/');
    if i < 0 then (if dsn == "" then Ok(NewConfig()) else Err(NoSlash))
    else ParseHalves(dsn[..i], dsn[i + 1..], env)
  }

  function Parse(dsn: string, env: Env): Parsed
  {
    match ParseBody(dsn, env)
    case Err(e) => Err(e)
    case Ok(c) => Normalize(c, env)
  }

  // The index loops of ParseDSN

  method ParseDSNParams(cfg: Config, params: string, env: Env) returns (r: Parsed)
    ensures r == ParseParams(cfg, params, env)
  {
    hide ParseSegment, ApplyParam;
    var c := cfg;
    var parts := Split(params, '&');
    for i := 0 to |parts|
      invariant ParseParams(cfg, params, env) == ParseSegments(c, parts[i..], env)
    {
      assert parts[i..][0] == parts[i] && parts[i..][1..] == parts[i + 1..];
      r := ParseSegment(c, parts[i], env);
      if r.Err? {
        return;
      }
      c := r.cfg;
    }
    assert parts[|parts|..] == [];
    r := Ok(c);
  }

  /** for k = 0; k < j; k++ up to the ':'. */
  method ReadCredentials(cfg: Config, dsn: string, j: nat) returns (c: Config)
    requires j <= |dsn|
    ensures c == ParseCredentials(cfg, dsn[..j])
  {
    c := cfg;
    var k := 0;
    while k < j
      invariant 0 <= k <= j && ':' !in dsn[..k] && c == cfg
    {
      if dsn[k] == ':' {
        assert dsn[..j] == dsn[..k] + [':'] + dsn[k + 1..j];
        FirstIndexIs(dsn[..k], ':', dsn[k + 1..j]);
        c := c.(passwd := dsn[k + 1..j]);
        c := c.(user := dsn[..k]);
        return;
      }
      k := k + 1;
    }
    NoFirstIndex(dsn[..j], ':');
    c := c.(user := dsn[..k]);
  }

  /** The first c of dsn[start..i] stands at k. */
  lemma {:induction false} FirstAt(dsn: string, start: nat, k: nat, i: nat, c: char)
    requires start <= k < i <= |dsn| && c !in dsn[start..k] && dsn[k] == c
    ensures var text := dsn[start..i];
            && FirstIndex(text, c) == k - start < |text| && text[..k - start] == dsn[start..k]
            && text[k - start + 1..] == dsn[k + 1..i] && text[|text| - 1] == dsn[i - 1]
            && (k + 1 < i ==> text[k - start + 1..|text| - 1] == dsn[k + 1..i - 1])
  {
    hide FirstIndex;
    var text, a, b := dsn[start..i], dsn[start..k], dsn[k + 1..i];
    assert text == a + [c] + b;
    FirstIndexIs(a, c, b);
    Parts(a, c, b);
    if k + 1 < i {
      SliceOfSlice(dsn, start, i, |a| + 1, |text| - 1);
    }
  }

  /** The last c of dsn[..i] stands at k. */
  lemma {:induction false} LastAt(dsn: string, k: nat, i: nat, c: char)
    requires k < i <= |dsn| && c !in dsn[k + 1..i] && dsn[k] == c
    ensures LastIndex(dsn[..i], c) == k && dsn[..i][..k] == dsn[..k] && dsn[..i][k + 1..] == dsn[k + 1..i]
  {
    assert dsn[..i] == dsn[..k] + [c] + dsn[k + 1..i];
    LastIndexIs(dsn[..k], c, dsn[k + 1..i]);
  }

  /** for k = j + 1; k < i; k++ up to the '('. */
  method ReadHost(cfg: Config, dsn: string, start: nat, i: nat) returns (r: Parsed)
    requires start <= i <= |dsn|
    ensures r == ParseHost(cfg, dsn[start..i])
  {
    hide FirstIndex;
    var c := cfg;
    var k := start;
    while k < i
      invariant start <= k <= i && '(' !in dsn[start..k] && c == cfg
    {
      if dsn[k] == '(' {
        FirstAt(dsn, start, k, i, '(');
        if dsn[i - 1] != ')' {
          return Err(if ')' in dsn[k + 1..i] then Unescaped else AddrNotTerminated);
        }
        c := c.(addr := dsn[k + 1..i - 1]);
        return Ok(c.(net := dsn[start..k]));
      }
      k := k + 1;
    }
    NoFirstIndex(dsn[start..i], '(');
    return Ok(c.(net := dsn[start..k]));
  }

  lemma {:induction false} MoreBefore(dsn: string, j: nat, i: nat, c: char)
    requires j <= i < |dsn| && dsn[j] != c && (j < i ==> c !in dsn[j + 1..i])
    ensures c !in dsn[j..i]
  {
    assert j < i ==> dsn[j..i] == [dsn[j]] + dsn[j + 1..i];
  }

  lemma {:induction false} NoneBefore(dsn: string, i: nat, c: char)
    requires i <= |dsn| && c !in dsn[0..i]
    ensures LastIndex(dsn[..i], c) == -1 && dsn[..i][0..] == dsn[0..i]
  {
    assert dsn[..i] == dsn[0..i];
    NoLastIndex(dsn[..i], c);
  }

  /** j is where the last '@' of dsn[..i] stands; -1 if there is none. */
  ghost predicate LastAtSign(dsn: string, i: nat, j: int)
    requires i <= |dsn|
  {
    j == LastIndex(dsn[..i], '@')
  }

  /** for j = i; j >= 0; j-- down to the last '@', or past the start. */
  method FindAt(dsn: string, i: nat) returns (j: int)
    requires i < |dsn| && dsn[i] == '/'
    ensures -1 <= j < i && LastAtSign(dsn, i, j)
  {
    hide LastIndex;
    j := i - 1;           // dsn[i] is the slash
    MoreBefore(dsn, i, i, '@');
    while j >= 0
      invariant -1 <= j < i && '@' !in dsn[j + 1..i]
    {
      if dsn[j] == '@' {
        LastAt(dsn, j, i, '@');
        return;
      }
      MoreBefore(dsn, j, i, '@');
      j := j - 1;
    }
    NoneBefore(dsn, i, '@');
  }

  lemma {:induction false} LeftOf(c: Config, dsn: string, i: nat, j: int)
    requires -1 <= j < i <= |dsn| && 0 < i && LastAtSign(dsn, i, j)
    ensures ParseLeft(c, dsn[..i]) == ParseHost(if j >= 0 then ParseCredentials(c, dsn[..j]) else c, dsn[j + 1..i])
  {
    hide LastIndex, ParseHost, ParseCredentials;
    assert dsn[..i][j + 1..] == dsn[j + 1..i];
    assert j >= 0 ==> dsn[..i][..j] == dsn[..j];
  }

  method ReadLeft(cfg: Config, dsn: string, i: nat) returns (r: Parsed)
    requires i < |dsn| && dsn[i] == '/'
    ensures r == ParseLeft(cfg, dsn[..i])
  {
    hide ParseLeft, ParseHost, ParseCredentials, LastAtSign;
    if i == 0 {
      EmptyLeft(cfg, dsn);
      return Ok(cfg);
    }
    var j := FindAt(dsn, i);
    LeftOf(cfg, dsn, i, j);
    var c := cfg;
    if j >= 0 {
      c := ReadCredentials(cfg, dsn, j);
    }
    r := ReadHost(c, dsn, j + 1, i);
  }

  lemma {:induction false} EmptyLeft(c: Config, dsn: string)
    ensures ParseLeft(c, dsn[..0]) == Ok(c)
  {}

  /** for j = i + 1; j < len(dsn); j++ up to the '?'. */
  method ReadRight(cfg: Config, dsn: string, i: nat, env: Env) returns (r: Parsed)
    requires i < |dsn|
    ensures r == ParseRight(cfg, dsn[i + 1..], env)
  {
    hide ParseParams;
    ghost var right := dsn[i + 1..];
    var c := cfg;
    var j := i + 1;
    while j < |dsn|
      invariant i + 1 <= j <= |dsn| && '?' !in dsn[i + 1..j] && c == cfg
    {
      if dsn[j] == '?' {
        assert right == dsn[i + 1..j] + ['?'] + dsn[j + 1..];
        FirstIndexIs(dsn[i + 1..j], '?', dsn[j + 1..]);
        assert right[j - i - 1 + 1..] == dsn[j + 1..] && right[..j - i - 1] == dsn[i + 1..j];
        r := ParseDSNParams(c, dsn[j + 1..], env);
        if r.Err? {
          return;
        }
        return Ok(r.cfg.(dbName := dsn[i + 1..j]));
      }
      j := j + 1;
    }
    assert dsn[i + 1..j] == right;
    NoFirstIndex(right, '?');
    assert right[..|right|] == right;
    r := Ok(c.(dbName := dsn[i + 1..j]));
  }

  /** Both sides of the slash at i. */
  method ReadHalves(dsn: string, i: nat, env: Env) returns (r: Parsed)
    requires i < |dsn| && dsn[i] == '/'
    ensures r == ParseHalves(dsn[..i], dsn[i + 1..], env)
  {
    hide ParseLeft, ParseRight, NewConfig;
    r := ReadLeft(NewConfig(), dsn, i);
    if r.Err? {
      return;
    }
    r := ReadRight(r.cfg, dsn, i, env);
  }

  lemma {:induction false} SlashAt(dsn: string, i: nat, env: Env)
    requires i < |dsn| && dsn[i] == '/' && '/' !in dsn[i + 1..]
    ensures ParseBody(dsn, env) == ParseHalves(dsn[..i], dsn[i + 1..], env)
  {
    hide ParseHalves, NewConfig;
    assert dsn == dsn[..i] + ['/'] + dsn[i + 1..];
    LastIndexIs(dsn[..i], '/', dsn[i + 1..]);
  }

  lemma {:induction false} NoSlashAt(dsn: string, env: Env)
    requires '/' !in dsn[0..]
    ensures ParseBody(dsn, env) == if dsn == "" then Ok(NewConfig()) else Err(NoSlash)
  {
    hide ParseHalves, NewConfig;
    assert dsn[0..] == dsn;
    NoLastIndex(dsn, '/');
  }

  lemma {:induction false} OneMoreWithout(dsn: string, i: nat, c: char)
    requires i < |dsn| && dsn[i] != c && c !in dsn[i + 1..]
    ensures c !in dsn[i..]
  {
    assert dsn[i..] == [dsn[i]] + dsn[i + 1..];
  }

  /** for i := len(dsn) - 1; i >= 0; i-- down to the '/'. */
  method ParseDSN(dsn: string, env: Env) returns (r: Parsed)
    ensures r == Parse(dsn, env)
  {
    hide ParseHalves, ParseBody, Normalize, NewConfig;
    var i := |dsn| - 1;
    while i >= 0
      invariant -1 <= i < |dsn| && '/' !in dsn[i + 1..]
    {
      if dsn[i] == '/' {
        SlashAt(dsn, i, env);
        r := ReadHalves(dsn, i, env);
        if r.Err? {
          return;
        }
        r := Normalize(r.cfg, env);
        return;
      }
      OneMoreWithout(dsn, i, '/');
      i := i - 1;
    }
    NoSlashAt(dsn, env);
    if |dsn| > 0 {
      return Err(NoSlash);
    }
    r := Normalize(NewConfig(), env);
  }
}
