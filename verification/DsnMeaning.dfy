// What single parts of a data source name mean, word by word (mysql/dsn.go, mysql/utils.go:
// readBool): defaults, values, keys and errors.
module DsnMeaning {
  import opened DsnText
  import opened Dsn
  import opened DsnRoundTrip

  /** The shortest names, and what is filled in for them. */
  lemma {:induction false} EmptyDsn(env: Env)
    ensures var cfg := Config("", "", "tcp", "127.0.0.1:3306", "", map[], "utf8mb4_general_ci", Utc, 4194304, "", "",
                              0, 0, 0, {AllowNativePasswords, CheckConnLiveness});
            Parse("", env) == Ok(cfg) && Parse("/", env) == Ok(cfg)
  {
    assert LastIndex("/", '/') == 0;
    assert "/"[..0] == "" && "/"[1..] == "";
  }

  /** Without a slash there is no name. */
  lemma {:induction false} SlashNeeded(dsn: string, env: Env)
    requires '/' !in dsn && dsn != ""
    ensures Parse(dsn, env) == Err(NoSlash)
  {
    NoLastIndex(dsn, '/');
  }

  /** The address stands in parentheses that end the left side. */
  lemma {:induction false} HostErrors(c: Config, net: string, rest: string)
    requires '(' !in net
    ensures ParseHost(c, net) == Ok(c.(net := net))
    ensures ParseHost(c, net + "(" + rest) ==
            if rest != "" && rest[|rest| - 1] == ')' then Ok(c.(net := net, addr := rest[..|rest| - 1]))
            else if ')' in rest then Err(Unescaped)
            else Err(AddrNotTerminated)
  {
    NoFirstIndex(net, '(');
    FirstIndexIs(net, '(', rest);
    var text := net + ['('] + rest;
    assert net + "(" + rest == text;
    Parts(net, '(', rest);
    if rest != "" && rest[|rest| - 1] == ')' {
      assert text[|net| + 1..|text| - 1] == rest[..|rest| - 1];
    }
  }

  /** normalize: the default network and addresses, the default port, and what is refused. */
  lemma {:induction false} NormalizeExactly(c: Config, env: Env)
    ensures var net := if c.net == "" then "tcp" else c.net;
            var addr :=
              if c.addr == "" then (if net == "tcp" then "127.0.0.1:3306" else "/tmp/mycpool.sock")
              else if net != "tcp" || env.splitsHostPort(c.addr) then c.addr
              else if ':' in c.addr then "[" + c.addr + "]:3306"
              else c.addr + ":3306";
            var tls := c.tlsConfig == "" || c.tlsConfig == "false" || c.tlsConfig == "true"
                       || c.tlsConfig == "skip-verify" || c.tlsConfig == "preferred" || env.tlsKnown(c.tlsConfig);
            Normalize(c, env) ==
              if InterpolateParams in c.flags && env.unsafeCollation(c.collation) then Err(UnsafeCollation)
              else if c.addr == "" && net != "tcp" && net != "unix" then Err(UnknownAddr)
              else if !tls then Err(UnknownTls)
              else if c.serverPubKey != "" && !env.keyKnown(c.serverPubKey) then Err(UnknownKey)
              else Ok(c.(net := net, addr := addr))
  {}

  /** readBool. */
  lemma {:induction false} BooleanWords(s: string)
    ensures ReadBool(s) == Some(true) <==> s == "1" || s == "true" || s == "TRUE" || s == "True"
    ensures ReadBool(s) == Some(false) <==> s == "0" || s == "false" || s == "FALSE" || s == "False"
  {}

  lemma {:induction false} Segment(c: Config, key: string, value: string, env: Env)
    requires '=' !in key
    ensures ParseSegment(c, key + "=" + value, env) == ApplyParam(c, NameOf(key), value, env)
    ensures ParseSegment(c, key, env) == Ok(c)
  {
    hide NameOf, ApplyParam;
    NoFirstIndex(key, '=');
    FirstIndexIs(key, '=', value);
    assert key + "=" + value == key + ['='] + value;
    Parts(key, '=', value);
  }

  /** The value of a key of its own goes to the key's case of the switch. */
  lemma {:induction false} KeySegment(c: Config, n: Name, value: string, env: Env)
    requires !n.Other?
    ensures ParseSegment(c, NameText(n) + "=" + value, env) == ApplyParam(c, n, value, env)
  {
    FixedNames(n);
    hide ParseSegment, ApplyParam, NameText, NameOf;
    Segment(c, NameText(n), value, env);
  }

  /** A boolean parameter sets its field, or the name is refused. */
  lemma {:induction false} FlagParameter(c: Config, f: Flag, value: string, env: Env)
    ensures ParseSegment(c, FlagText(f) + "=" + value, env) ==
            match ReadBool(value)
            case Some(true) => Ok(c.(flags := c.flags + {f}))
            case Some(false) => Ok(c.(flags := c.flags - {f}))
            case None => Err(BadBool)
  {
    hide ParseSegment, FlagText, ReadBool;
    KeySegment(c, Bool(f), value, env);
  }

  /** The other keys: their fields, and the errors. */
  lemma {:induction false} DurationParameters(c: Config, value: string, env: Env)
    ensures ParseSegment(c, "timeout" + "=" + value, env) ==
            match env.parseDuration(value) case Some(d) => Ok(c.(timeout := d)) case None => Err(BadDuration)
    ensures ParseSegment(c, "readTimeout" + "=" + value, env) ==
            match env.parseDuration(value) case Some(d) => Ok(c.(readTimeout := d)) case None => Err(BadDuration)
    ensures ParseSegment(c, "writeTimeout" + "=" + value, env) ==
            match env.parseDuration(value) case Some(d) => Ok(c.(writeTimeout := d)) case None => Err(BadDuration)
  {
    hide ParseSegment, NameOf, ToLower, QueryUnescape;
    KeySegment(c, Timeout, value, env);
    KeySegment(c, ReadTimeout, value, env);
    KeySegment(c, WriteTimeout, value, env);
  }

  lemma {:induction false} OtherParameters(c: Config, value: string, env: Env)
    ensures ParseSegment(c, "collation" + "=" + value, env) == Ok(c.(collation := value))
    ensures ParseSegment(c, "compress" + "=" + value, env) == Err(NoCompression)
    ensures ParseSegment(c, "strict" + "=" + value, env) == Err(StrictPanic)
    ensures ParseSegment(c, "maxAllowedPacket" + "=" + value, env) ==
            match env.atoi(value) case Some(i) => Ok(c.(maxAllowedPacket := i)) case None => Err(BadNumber)
  {
    hide ParseSegment, NameOf, ToLower, QueryUnescape;
    KeySegment(c, Collation, value, env);
    KeySegment(c, Compress, value, env);
    KeySegment(c, Strict, value, env);
    KeySegment(c, MaxAllowedPacket, value, env);
  }

  lemma {:induction false} EscapedParameters(c: Config, value: string, env: Env)
    ensures QueryUnescape(value).None? ==>
              && ParseSegment(c, "loc" + "=" + value, env) == Err(BadEscape)
              && ParseSegment(c, "serverPubKey" + "=" + value, env) == Err(BadEscape)
    ensures match QueryUnescape(value)
            case None => true
            case Some(v) =>
              && ParseSegment(c, "serverPubKey" + "=" + value, env) == Ok(c.(serverPubKey := v))
              && ParseSegment(c, "loc" + "=" + value, env) ==
                 match env.loadLocation(v) case Some(l) => Ok(c.(loc := l)) case None => Err(BadLocation)
  {
    hide ParseSegment, NameOf, ToLower, QueryUnescape;
    KeySegment(c, Loc, value, env);
    KeySegment(c, ServerPubKey, value, env);
  }

  /** tls: a boolean word, one of two modes in any case, or the escaped name of a configuration. */
  lemma {:induction false} TlsParameter(c: Config, value: string, env: Env)
    ensures ParseSegment(c, "tls" + "=" + value, env) ==
            match ReadBool(value)
            case Some(b) => Ok(c.(tlsConfig := if b then "true" else "false"))
            case None =>
              if ToLower(value) == "skip-verify" || ToLower(value) == "preferred"
                then Ok(c.(tlsConfig := ToLower(value)))
              else match QueryUnescape(value) case Some(v) => Ok(c.(tlsConfig := v)) case None => Err(BadEscape)
  {
    hide ParseSegment, NameOf, ToLower, QueryUnescape;
    KeySegment(c, Tls, value, env);
  }

  /** url.QueryEscape: letters, digits, '-', '_', '.' and '~' stay, a blank becomes a plus sign, and
      everything else is written in hexadecimal; url.QueryUnescape takes hexadecimal digits in
      both cases. By the numbers of ASCII. */
  lemma {:induction false} UrlCharacters(c: char)
    ensures var n := c as int;
            && (EscapeChar(c) == [c] <==>
                  97 <= n <= 122 || 65 <= n <= 90 || 48 <= n <= 57 || n == 45 || n == 95 || n == 46 || n == 126)
            && (EscapeChar(c) == ['+'] <==> n == 32)
            && (EscapeChar(c) == [c] || EscapeChar(c) == ['+'] || (|EscapeChar(c)| == 3 && EscapeChar(c)[0] == '%'))
            && Unhex(c) == if 48 <= n <= 57 then Some(n - 48)
                           else if 65 <= n <= 70 then Some(n - 55)
                           else if 97 <= n <= 102 then Some(n - 87)
                           else None
  {}

  /** FormatDSN writes nothing for a parameter that has its default, a negative timeout, an empty
      collation or no location. */
  lemma {:induction false} DefaultsAreNotWritten(cfg: Config, env: Env)
    requires cfg.flags == {AllowNativePasswords, CheckConnLiveness} && cfg.params == map[]
    requires cfg.collation == "utf8mb4_general_ci" || cfg.collation == ""
    requires cfg.loc == Utc || cfg.loc == NilLoc
    requires cfg.timeout <= 0 && cfg.readTimeout <= 0 && cfg.writeTimeout <= 0
    requires cfg.maxAllowedPacket == 4194304 && cfg.serverPubKey == "" && cfg.tlsConfig == ""
    ensures Format(cfg, [], env) ==
            (if cfg.user == "" then "" else if cfg.passwd == "" then cfg.user + "@"
              else cfg.user + ":" + cfg.passwd + "@")
            + (if cfg.net == "" then "" else if cfg.addr == "" then cfg.net else cfg.net + "(" + cfg.addr + ")")
            + "/" + cfg.dbName
  {
    NoFlagsWritten(cfg);
    assert Settings3(cfg, env) == [] && Settings4(cfg, env) == [];
    assert AllSettings(cfg, [], env) == [];
    hide AllSettings, Settings1, Settings2, Settings3, Settings4;
    assert Head(cfg) + "" == Head(cfg);
    HeadIs(cfg);
  }

  lemma {:induction false} NoFlagsWritten(cfg: Config)
    requires cfg.flags == {AllowNativePasswords, CheckConnLiveness}
    ensures forall f :: OptFlag(cfg, f) == []
    ensures Settings1(cfg) == []
    ensures (cfg.collation == "utf8mb4_general_ci" || cfg.collation == "") && (cfg.loc == Utc || cfg.loc == NilLoc) ==>
              Settings2(cfg) == []
  {
    forall f
      ensures OptFlag(cfg, f) == []
    {
      assert f in cfg.flags <==> f == AllowNativePasswords || f == CheckConnLiveness;
    }
    hide OptFlag;
  }

  lemma {:induction false} HeadIs(cfg: Config)
    ensures Head(cfg) ==
            (if cfg.user == "" then "" else if cfg.passwd == "" then cfg.user + "@"
              else cfg.user + ":" + cfg.passwd + "@")
            + (if cfg.net == "" then "" else if cfg.addr == "" then cfg.net else cfg.net + "(" + cfg.addr + ")")
            + "/" + cfg.dbName
  {
    assert cfg.user + "" + "@" == cfg.user + "@" && cfg.net + "" == cfg.net;
    assert cfg.user + (":" + cfg.passwd) + "@" == cfg.user + ":" + cfg.passwd + "@";
    assert cfg.net + ("(" + cfg.addr + ")") == cfg.net + "(" + cfg.addr + ")";
  }
}
