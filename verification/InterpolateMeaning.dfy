// What an interpolated query is: the query cut at its marks with the rendered arguments between
// the pieces, in which every argument reads back.
module InterpolateMeaning {
  import opened Bytes
  import opened LenEnc
  import opened Decimals
  import opened Escape
  import opened ExecuteFormat
  import opened Interpolate
  import DateTime

  /** Every mark replaced by the next text, byte by byte. */
  function Naive(query: seq<byte>, texts: seq<seq<byte>>): seq<byte>
    requires CountMarks(query) == |texts|
  {
    if query == [] then []
    else if query[0] == 63 then texts[0] + Naive(query[1..], texts[1..])
    else [query[0]] + Naive(query[1..], texts)
  }

  predicate AllShown(args: seq<Arg>, session: Session)
    requires AllInRange(args)
  {
    forall j | 0 <= j < |args| :: Render(args[j], session).Shown?
  }

  lemma {:induction false} TailShown(args: seq<Arg>, session: Session)
    requires AllInRange(args) && AllShown(args, session) && args != []
    ensures InRange(args[0]) && AllInRange(args[1..]) && AllShown(args[1..], session)
    ensures Render(args[0], session).Shown?
    ensures forall j | 0 < j < |args| :: args[1..][j - 1] == args[j] && InRange(args[j])
  {
    hide Render, InRange;
    assert args[0] in args && forall a | a in args[1..] :: a in args;
    forall j | 0 <= j < |args| - 1
      ensures args[1..][j] == args[j + 1] && InRange(args[j + 1]) && Render(args[1..][j], session).Shown?
    {
      assert args[j + 1] in args;
    }
  }

  function Texts(args: seq<Arg>, session: Session): (ts: seq<seq<byte>>)
    requires AllInRange(args) && AllShown(args, session)
    ensures |ts| == |args| && forall j | 0 <= j < |args| :: ts[j] == Render(args[j], session).t
  {
    if args == [] then []
    else
      TailShown(args, session);
      [Render(args[0], session).t] + Texts(args[1..], session)
  }

  /** The place of mark number j. */
  function MarkPos(s: seq<byte>, j: nat): (p: nat)
    requires j < CountMarks(s)
    ensures p < |s| && s[p] == MARK
  {
    if s[0] == MARK then (if j == 0 then 0 else 1 + MarkPos(s[1..], j - 1)) else 1 + MarkPos(s[1..], j)
  }

  lemma {:induction false} CountAppend(a: seq<byte>, b: seq<byte>)
    ensures CountMarks(a + b) == CountMarks(a) + CountMarks(b)
  {
    if a == [] {
      assert a + b == b;
    } else {
      assert (a + b)[1..] == a[1..] + b;
      CountAppend(a[1..], b);
    }
  }

  lemma {:induction false} NaiveStep(query: seq<byte>, texts: seq<seq<byte>>)
    requires CountMarks(query) == |texts| && query != []
    ensures if query[0] == MARK
            then texts != [] && CountMarks(query[1..]) == |texts[1..]|
              && Naive(query, texts) == texts[0] + Naive(query[1..], texts[1..])
            else CountMarks(query[1..]) == |texts| && Naive(query, texts) == [query[0]] + Naive(query[1..], texts)
  {}

  lemma {:induction false} Assoc(a: seq<byte>, b: seq<byte>, c: seq<byte>)
    ensures a + (b + c) == a + b + c
  {}

  lemma {:induction false} HeadAndTail<T>(a: seq<T>, b: seq<T>)
    requires a != []
    ensures (a + b)[0] == a[0] && (a + b)[1..] == a[1..] + b
  {}

  lemma {:induction false} NaiveAppend(a: seq<byte>, b: seq<byte>, ta: seq<seq<byte>>, tb: seq<seq<byte>>)
    requires CountMarks(a) == |ta| && CountMarks(b) == |tb|
    ensures CountMarks(a + b) == |ta + tb| && Naive(a + b, ta + tb) == Naive(a, ta) + Naive(b, tb)
  {
    CountAppend(a, b);
    if a == [] {
      assert a + b == b && ta + tb == tb;
    } else {
      hide Naive, CountMarks;
      HeadAndTail(a, b);
      NaiveStep(a, ta);
      NaiveStep(a + b, ta + tb);
      if a[0] == MARK {
        HeadAndTail(ta, tb);
        NaiveAppend(a[1..], b, ta[1..], tb);
        Assoc(ta[0], Naive(a[1..], ta[1..]), Naive(b, tb));
      } else {
        NaiveAppend(a[1..], b, ta, tb);
        Assoc([a[0]], Naive(a[1..], ta), Naive(b, tb));
      }
    }
  }

  lemma {:induction false} NaiveNoMarks(s: seq<byte>)
    requires MARK !in s
    ensures Naive(s, []) == s
  {
    if s != [] {
      assert s[0] in s;
      NaiveNoMarks(s[1..]);
      assert s == [s[0]] + s[1..];
    }
  }

  lemma {:induction false} NaiveMark(t: seq<byte>)
    ensures CountMarks([MARK]) == 1 && Naive([MARK], [t]) == t
  {
    assert [MARK][1..] == [] && [t][1..] == [];
    assert Naive([], []) == [];
  }

  /** The query cut at its first mark. */
  lemma {:induction false} NaiveFirst(query: seq<byte>, texts: seq<seq<byte>>, q: nat)
    requires CountMarks(query) == |texts| && q < |query| && query[q] == MARK && MARK !in query[..q]
    ensures |texts| > 0 && CountMarks(query[q + 1..]) == |texts| - 1
    ensures Naive(query, texts) == query[..q] + texts[0] + Naive(query[q + 1..], texts[1..])
  {
    var a, b := query[..q], query[q + 1..];
    MarksFrom(query, q);
    assert query == a + [MARK] + b && texts == [] + [texts[0]] + texts[1..];
    NaiveMark(texts[0]);
    NaiveNoMarks(a);
    NaiveAppend(a, [MARK], [], [texts[0]]);
    NaiveAppend(a + [MARK], b, [] + [texts[0]], texts[1..]);
  }

  /** How much is written once the argument for mark j is in place. */
  function Written(query: seq<byte>, texts: seq<seq<byte>>, j: nat): nat
    requires CountMarks(query) == |texts| && j < |texts|
  {
    UpToMark(query, j);
    |Naive(query[..MarkPos(query, j) + 1], texts[..j + 1])|
  }

  lemma {:induction false} UpToMark(query: seq<byte>, j: nat)
    requires j < CountMarks(query)
    ensures CountMarks(query[..MarkPos(query, j) + 1]) == j + 1
    ensures CountMarks(query[..MarkPos(query, j)]) == j
    ensures CountMarks(query[MarkPos(query, j) + 1..]) == CountMarks(query) - j - 1
  {
    var p := MarkPos(query, j);
    CountToMark(query, j);
    assert query == query[..p] + [MARK] + query[p + 1..] && query[..p + 1] == query[..p] + [MARK];
    NaiveMark([]);
    CountAppend(query[..p], [MARK]);
    CountAppend(query[..p] + [MARK], query[p + 1..]);
  }

  lemma {:induction false} CountToMark(s: seq<byte>, j: nat)
    requires j < CountMarks(s)
    ensures CountMarks(s[..MarkPos(s, j)]) == j
  {
    if s[0] == MARK && j == 0 {
      assert s[..0] == [];
    } else {
      var k := if s[0] == MARK then j - 1 else j;
      CountToMark(s[1..], k);
      assert s[..MarkPos(s, j)] == [s[0]] + s[1..][..MarkPos(s[1..], k)];
    }
  }

  lemma {:induction false} MarkPosShift(query: seq<byte>, q: nat, j: nat)
    requires q < |query| && query[q] == MARK && MARK !in query[..q] && j < CountMarks(query)
    ensures CountMarks(query[q + 1..]) == CountMarks(query) - 1
    ensures MarkPos(query, j) == if j == 0 then q else q + 1 + MarkPos(query[q + 1..], j - 1)
    decreases q
  {
    MarksFrom(query, q);
    if q > 0 {
      assert query[0] in query[..q];
      assert query[1..][..q - 1] == query[..q][1..];
      assert query[1..][q..] == query[q + 1..];
      MarkPosShift(query[1..], q - 1, j);
    }
  }

  lemma {:induction false} WrittenShift(query: seq<byte>, texts: seq<seq<byte>>, q: nat, j: nat)
    requires CountMarks(query) == |texts| && q < |query| && query[q] == MARK && MARK !in query[..q] && j < |texts|
    ensures CountMarks(query[q + 1..]) == |texts| - 1
    ensures Written(query, texts, j) == q + |texts[0]| + if j == 0 then 0
            else Written(query[q + 1..], texts[1..], j - 1)
  {
    hide Naive, MarkPos, CountMarks;
    MarkPosShift(query, q, j);
    UpToMark(query, j);
    var head, ts := query[..MarkPos(query, j) + 1], texts[..j + 1];
    assert head[..q] == query[..q];
    NaiveFirst(head, ts, q);
    if j == 0 {
      assert head[q + 1..] == [] && ts[1..] == [];
      NaiveNoMarks([]);
    } else {
      UpToMark(query[q + 1..], j - 1);
      assert head[q + 1..] == query[q + 1..][..MarkPos(query[q + 1..], j - 1) + 1];
      assert ts[1..] == texts[1..][..j];
    }
  }

  /** The packet limit holds behind every argument but the untyped nils. */
  predicate Fits(query: seq<byte>, args: seq<Arg>, n: nat, session: Session)
    requires AllInRange(args) && CountMarks(query) == |args| && AllShown(args, session)
  {
    forall j | 0 <= j < |args| ::
      args[j].Nil? || n + Written(query, Texts(args, session), j) + 4 <= session.maxAllowedPacket
  }

  lemma {:induction false} ShownTail(args: seq<Arg>, session: Session)
    requires AllInRange(args) && args != []
    ensures InRange(args[0]) && AllInRange(args[1..])
    ensures AllShown(args, session) <==> Render(args[0], session).Shown? && AllShown(args[1..], session)
    ensures AllShown(args, session) ==> Texts(args, session) == [Render(args[0], session).t] + Texts(args[1..], session)
  {
    hide Render, InRange;
    assert args[0] in args && forall a | a in args[1..] :: a in args;
    assert forall j | 0 <= j < |args| - 1 :: args[1..][j] == args[j + 1];
    if Render(args[0], session).Shown? && AllShown(args[1..], session) {
      forall j | 0 <= j < |args|
        ensures Render(args[j], session).Shown?
      {
        if j > 0 {
          assert args[j] == args[1..][j - 1];
        }
      }
    }
  }

  lemma {:induction false} FitsTail(query: seq<byte>, args: seq<Arg>, n: nat, session: Session, q: nat)
    requires AllInRange(args) && CountMarks(query) == |args| && AllShown(args, session)
    requires q < |query| && query[q] == MARK && MARK !in query[..q] && args != []
    requires AllInRange(args[1..]) && AllShown(args[1..], session) && CountMarks(query[q + 1..]) == |args| - 1
    requires Texts(args, session) == [Render(args[0], session).t] + Texts(args[1..], session)
    ensures var m := n + q + |Render(args[0], session).t|;
            Fits(query, args, n, session) <==>
              (args[0].Nil? || m + 4 <= session.maxAllowedPacket) && Fits(query[q + 1..], args[1..], m, session)
  {
    hide Written, CountMarks, Render, AllInRange, AllShown;
    var texts, rest := Texts(args, session), Texts(args[1..], session);
    var m := n + q + |texts[0]|;
    assert texts[1..] == rest;
    WrittenShift(query, texts, q, 0);
    forall j | 0 <= j < |args| - 1
      ensures n + Written(query, texts, j + 1) == m + Written(query[q + 1..], rest, j) && args[1..][j] == args[j + 1]
    {
      WrittenShift(query, texts, q, j + 1);
    }
    if Fits(query[q + 1..], args[1..], m, session) && (args[0].Nil? || m + 4 <= session.maxAllowedPacket) {
      forall j | 0 <= j < |args|
        ensures args[j].Nil? || n + Written(query, texts, j) + 4 <= session.maxAllowedPacket
      {
        if j > 0 {
          assert args[1..][j - 1] == args[j];
        }
      }
    }
    if Fits(query, args, n, session) {
      forall j | 0 <= j < |args| - 1
        ensures args[1..][j].Nil? || m + Written(query[q + 1..], rest, j) + 4 <= session.maxAllowedPacket
      {
        assert args[1..][j] == args[j + 1];
      }
    }
  }

  /** Interpolation succeeds exactly if every argument can be rendered and the packet limit holds
      behind each of them; the result is then the naive one. */
  lemma {:induction false} WalkIsNaive(query: seq<byte>, args: seq<Arg>, n: nat, session: Session)
    requires AllInRange(args) && CountMarks(query) == |args|
    ensures var r := Walk(query, args, n, session);
            && (r.Query? <==> AllShown(args, session) && Fits(query, args, n, session))
            && (r.Query? ==> r.q == Naive(query, Texts(args, session)))
    decreases |query|
  {
    hide Walk, CountMarks, Render, Naive, Fits, AllShown, AllInRange, Texts;
    WalkStep(query, args, n, session);
    var q := IndexMark(query);
    if q == -1 {
      NoArgs(query, n, session);
    } else {
      ShownTail(args, session);
      var t := Render(args[0], session);
      if t.Shown? {
        var m := n + q + |t.t|;
        WalkIsNaive(query[q + 1..], args[1..], m, session);
        if AllShown(args, session) {
          NaiveFirst(query, Texts(args, session), q);
          FitsTail(query, args, n, session, q);
          assert Texts(args, session)[1..] == Texts(args[1..], session);
        }
      }
    }
  }

  lemma {:induction false} NoArgs(query: seq<byte>, n: nat, session: Session)
    requires MARK !in query
    ensures AllInRange([]) && AllShown([], session) && Texts([], session) == []
    ensures CountMarks(query) == 0 && Fits(query, [], n, session) && Naive(query, []) == query
  {
    NaiveNoMarks(query);
  }

  lemma {:induction false} CutAt<T>(s: seq<T>, p: nat)
    requires p < |s|
    ensures s == s[..p] + ([s[p]] + s[p + 1..])
  {}

  /** The interpolated query up to mark j, and behind it. */
  function BeforeMark(query: seq<byte>, texts: seq<seq<byte>>, j: nat): seq<byte>
    requires CountMarks(query) == |texts| && j < |texts|
  {
    UpToMark(query, j);
    Naive(query[..MarkPos(query, j)], texts[..j])
  }

  function BehindMark(query: seq<byte>, texts: seq<seq<byte>>, j: nat): seq<byte>
    requires CountMarks(query) == |texts| && j < |texts|
  {
    UpToMark(query, j);
    Naive(query[MarkPos(query, j) + 1..], texts[j + 1..])
  }

  /** The query cut at mark j. */
  lemma {:induction false} NaiveAt(query: seq<byte>, texts: seq<seq<byte>>, j: nat)
    requires CountMarks(query) == |texts| && j < |texts|
    ensures Naive(query, texts) == BeforeMark(query, texts, j) + (texts[j] + BehindMark(query, texts, j))
  {
    hide Naive, MarkPos, CountMarks;
    var p := MarkPos(query, j);
    UpToMark(query, j);
    var a, b := query[..p], query[p + 1..];
    CutAt(query, p);
    CutAt(texts, j);
    NaiveMark(texts[j]);
    NaiveAppend([MARK], b, [texts[j]], texts[j + 1..]);
    NaiveAppend(a, [MARK] + b, texts[..j], [texts[j]] + texts[j + 1..]);
  }

  /** The string an argument stands for inside quotes, and what comes before them. */
  datatype Quotation = Quotation(prefix: seq<byte>, value: seq<byte>) | NotQuoted

  function QuotationOf(a: Arg): Quotation
    requires InRange(a)
  {
    match a
    case RawJson(v) => Quotation([], OrEmpty(v))
    case ByteSlice(Val(s)) => Quotation([95, 98, 105, 110, 97, 114, 121], s)            // _binary
    case Str(s) => Quotation([], s)
    case Time(None) => Quotation([], [48, 48, 48, 48, 45, 48, 48, 45, 48, 48])
    case Time(Some(t)) =>
      (match DateTime.AppendDateTime(t)
       case Text(b) => Quotation([], b)
       case _ => NotQuoted)
    case _ => NotQuoted
  }

  /** A byte that stands for itself inside quotes, in both modes. */
  predicate Plain(c: byte)
  {
    c == 32 || 45 <= c <= 58
  }

  lemma {:induction false} PlainEscapes(v: seq<byte>, backslash: bool)
    requires forall c | c in v :: Plain(c)
    ensures Escaped(v, backslash) == v
  {
    if v != [] {
      var u, c := v[..|v| - 1], v[|v| - 1];
      assert v == u + [c] && c in v;
      PlainByte(c, backslash);
      hide EscapeByte, Plain;
      PlainEscapes(u, backslash);
    }
  }

  lemma {:induction false} PlainByte(c: byte, backslash: bool)
    requires Plain(c)
    ensures EscapeByte(c, backslash) == [c]
  {}

  lemma {:induction false} TimeTextPlain(t: DateTime.Time)
    requires DateTime.ValidTime(t)
    ensures match DateTime.AppendDateTime(t) case Text(b) => (forall c | c in b :: Plain(c)) case _ => true
  {
    DateTime.AddHalfMicroIsLater(t);
    if DateTime.AppendDateTime(t).Text? {
      FieldsPlain(DateTime.RoundUp(t));
    }
  }

  lemma {:induction false} FieldsPlain(t: DateTime.Time)
    requires DateTime.ValidTime(t) && 1 <= t.year <= 9999
    ensures DateTime.AppendFields(t).Text? && forall c | c in DateTime.AppendFields(t).bytes :: Plain(c)
  {
    DateTextPlain(t.year, t.month, t.day);
    ClockTextPlain(t.hour, t.min, t.sec);
    SixDigitsPlain(t.nsec / 1000);
    hide DateTime.DateText, DateTime.ClockText, DateTime.SixDigits;
  }

  lemma {:induction false} DateTextPlain(y: int, m: int, d: int)
    requires 0 <= y <= 9999 && 0 <= m < 100 && 0 <= d < 100
    ensures forall c | c in DateTime.DateText(y, m, d) :: Plain(c)
  {}

  lemma {:induction false} ClockTextPlain(h: int, m: int, s: int)
    requires 0 <= h < 100 && 0 <= m < 100 && 0 <= s < 100
    ensures forall c | c in DateTime.ClockText(h, m, s) :: Plain(c)
  {}

  lemma {:induction false} SixDigitsPlain(micro: nat)
    requires micro < 1_000_000
    ensures forall c | c in DateTime.SixDigits(micro) :: Plain(c)
  {}

  lemma {:induction false} ZeroDateText()
    ensures DateTime.ZeroDateTime(0, 10) == [48, 48, 48, 48, 45, 48, 48, 45, 48, 48]
  {}

  /** What every rendering is: quoted and escaped, a number that reads back, the text of a float,
      NULL, or nothing for a year that cannot be printed and for other types. */
  lemma {:induction false} RenderingMeans(a: Arg, session: Session)
    requires InRange(a)
    ensures QuotationOf(a).Quotation? ==>
              Render(a, session) == Shown(QuotationOf(a).prefix + Quoted(QuotationOf(a).value, session.backslash))
    ensures match a
            case Int64(v) => Render(a, session).Shown? && SignedValue(Render(a, session).t) == v
            case Uint64(u) => Render(a, session).Shown? && Value(Render(a, session).t) == u
            case Bool(b) => Render(a, session).Shown? && Value(Render(a, session).t) == if b then 1 else 0
            case Float64(bits) => Render(a, session) == Shown(session.floatText(bits))
            case Nil => Render(a, session) == Shown([78, 85, 76, 76])
            case ByteSlice(Null) => Render(a, session) == Shown([78, 85, 76, 76])
            case Unsupported => Render(a, session) == Unconvertible
            case Time(Some(t)) =>
              var y := DateTime.ToMicros(DateTime.RoundUp(t)).year;
              if 1 <= y <= 9999 then QuotationOf(a).Quotation? else Render(a, session) == YearError(y)
            case _ => QuotationOf(a).Quotation?
  {
    hide Escaped, Digits, Value, SignedDigits, SignedValue, DateTime.AppendDateTime, DateTime.ZeroDateTime;
    match a
    case Int64(v) => SignedDigitsRoundTrip(v);
    case Uint64(u) => DigitsRoundTrip(u);
    case Bool(b) => OneDigit(b);
    case Time(None) =>
      var z := DateTime.ZeroDateTime(0, 10);
      ZeroDateText();
      PlainEscapes(z, session.backslash);
      NoPrefix(Quoted(z, session.backslash));
    case Time(Some(t)) =>
      TimeTextPlain(t);
      DateTime.ParseUndoesAppendDateTime(t);
      if DateTime.AppendDateTime(t).Text? {
        var text := DateTime.AppendDateTime(t).bytes;
        PlainEscapes(text, session.backslash);
        NoPrefix(Quoted(text, session.backslash));
      }
    case RawJson(v) => NoPrefix(Quoted(OrEmpty(v), session.backslash));
    case Str(s) => NoPrefix(Quoted(s, session.backslash));
    case _ =>
  }

  lemma {:induction false} OneDigit(b: bool)
    ensures Value([if b then 49 else 48]) == if b then 1 else 0
  {
    assert [if b then 49 else 48][..0] == [];
  }

  lemma {:induction false} NoPrefix(s: seq<byte>)
    ensures [] + s == s
  {}

  /** A string, JSON or time argument, read from behind its opening quote in the interpolated
      query as the server reads it in the session's mode, is the original, and the remainder is
      the rest of the query: if and only if that rest does not start with a quote. */
  lemma {:induction false} StringsReadBack(query: seq<byte>, args: seq<Arg>, j: nat, session: Session)
    requires AllInRange(args) && CountMarks(query) == |args| && Walk(query, args, 0, session).Query?
    requires j < |args| && InRange(args[j]) && QuotationOf(args[j]).Quotation?
    ensures AllShown(args, session)
    ensures var s, texts := Walk(query, args, 0, session).q, Texts(args, session);
            var before, rest := BeforeMark(query, texts, j), BehindMark(query, texts, j);
            var at := |before| + |QuotationOf(args[j]).prefix|;
            && at < |s| && s[at] == QUOTE
            && (Lex(s[at + 1..], session.backslash) == Literal(QuotationOf(args[j]).value, rest)
              <==> rest == [] || rest[0] != QUOTE)
  {
    hide Walk, CountMarks, Render, Naive, Fits, AllShown, AllInRange, QuotationOf, Escaped, Lex, MarkPos;
    WalkIsNaive(query, args, 0, session);
    hide BeforeMark, BehindMark;
    var s, texts := Walk(query, args, 0, session).q, Texts(args, session);
    NaiveAt(query, texts, j);
    RenderingMeans(args[j], session);
    var before, rest := BeforeMark(query, texts, j), BehindMark(query, texts, j);
    var q := QuotationOf(args[j]);
    var e := Escaped(q.value, session.backslash);
    LiteralAt(before, q.prefix, e, rest);
    EscapedReadsBack(q.value, rest, session.backslash);
  }

  lemma {:induction false} LiteralAt(before: seq<byte>, prefix: seq<byte>, e: seq<byte>, rest: seq<byte>)
    ensures var s := before + (prefix + ([QUOTE] + e + [QUOTE]) + rest);
            var at := |before| + |prefix|;
            at < |s| && s[at] == QUOTE && s[at + 1..] == e + [QUOTE] + rest
  {}
}
