// When an interpolated query respects the packet limit (mysql/connection.go:225-294). The limit
// is checked behind every argument but the untyped nils, and not for the text behind the last
// mark; so the result can exceed it.
module InterpolateLimit {
  import opened Bytes
  import opened ExecuteFormat
  import opened Interpolate
  import opened InterpolateMeaning

  /** Whatever is returned fits into a packet under the limit, with its header. */
  predicate KeepsLimit(query: seq<byte>, args: seq<Arg>, session: Session, limit: nat)
    requires AllInRange(args) && CountMarks(query) == |args|
  {
    var r := Walk(query, args, 0, session.(maxAllowedPacket := limit));
    r.Query? ==> |r.q| + 4 <= limit
  }

  /** The query ends in a mark, and the argument for it is not the untyped nil. */
  predicate EndsInValue(query: seq<byte>, args: seq<Arg>)
  {
    args != [] && query != [] && query[|query| - 1] == MARK && !args[|args| - 1].Nil?
  }

  /** The limit has no part in how arguments are rendered. */
  lemma {:induction false} SameTexts(args: seq<Arg>, session: Session, limit: nat)
    requires AllInRange(args)
    ensures var other := session.(maxAllowedPacket := limit);
            && (AllShown(args, other) <==> AllShown(args, session))
            && (AllShown(args, session) ==> Texts(args, other) == Texts(args, session))
  {
    hide Texts;
    var other := session.(maxAllowedPacket := limit);
    forall j | 0 <= j < |args|
      ensures InRange(args[j]) && Render(args[j], other) == Render(args[j], session)
    {
      assert args[j] in args;
    }
    hide Render;
  }

  lemma {:induction false} WrittenAndRest(query: seq<byte>, texts: seq<seq<byte>>, j: nat)
    requires CountMarks(query) == |texts| && j < |texts|
    ensures var p := MarkPos(query, j);
            && CountMarks(query[p + 1..]) == |texts| - j - 1
            && |Naive(query, texts)| == Written(query, texts, j) + |Naive(query[p + 1..], texts[j + 1..])|
  {
    hide Naive, MarkPos, CountMarks;
    var p := MarkPos(query, j);
    UpToMark(query, j);
    assert query == query[..p + 1] + query[p + 1..] && texts == texts[..j + 1] + texts[j + 1..];
    NaiveAppend(query[..p + 1], query[p + 1..], texts[..j + 1], texts[j + 1..]);
  }

  /** Text behind the last mark, or a last argument that leaves a trace, makes it longer. */
  lemma {:induction false} NaiveNotEmpty(s: seq<byte>, texts: seq<seq<byte>>)
    requires CountMarks(s) == |texts| && s != []
    requires s[|s| - 1] == MARK ==> texts != [] && texts[|texts| - 1] != []
    ensures Naive(s, texts) != []
    decreases |s|
  {
    if |s| == 1 {
      assert s[1..] == [];
    } else if s[0] == MARK {
      assert s[1..][|s| - 2] == s[|s| - 1];
      if s[|s| - 1] == MARK {
        assert CountMarks(s[1..]) > 0;
      }
      NaiveNotEmpty(s[1..], texts[1..]);
    }
  }

  /** Behind the mark of a value there is always something more, unless the query ends in it. */
  lemma {:induction false} MoreBehind(query: seq<byte>, args: seq<Arg>, session: Session, j: nat)
    requires AllInRange(args) && CountMarks(query) == |args| && AllShown(args, session)
    requires !EndsInValue(query, args) && j < |args| && !args[j].Nil?
    ensures Written(query, Texts(args, session), j) < |Naive(query, Texts(args, session))|
  {
    hide Naive, MarkPos, CountMarks, Render, AllInRange, AllShown, Written;
    var texts, p := Texts(args, session), MarkPos(query, j);
    WrittenAndRest(query, texts, j);
    var rest := query[p + 1..];
    if query[|query| - 1] == MARK {
      assert args[|args| - 1].Nil? && j < |args| - 1;
      NilText(args, session);
      assert CountMarks(rest) > 0;
      assert rest != [];
      assert texts[j + 1..][|args| - j - 2] == texts[|args| - 1];
    }
    assert rest[|rest| - 1] == query[|query| - 1];
    NaiveNotEmpty(rest, texts[j + 1..]);
  }

  lemma {:induction false} NilText(args: seq<Arg>, session: Session)
    requires AllInRange(args) && AllShown(args, session) && args != [] && args[|args| - 1].Nil?
    ensures Texts(args, session)[|args| - 1] == NullText()
  {}

  lemma {:induction false} LastBehind(s: seq<byte>)
    ensures forall k | 0 <= k < |s| :: s[|s| - 1] in s[k..]
  {
    forall k | 0 <= k < |s|
      ensures s[|s| - 1] in s[k..]
    {
      assert s[k..][|s| - 1 - k] == s[|s| - 1];
    }
  }

  /** Nothing is behind the value in which a query ends. */
  lemma {:induction false} NothingBehind(query: seq<byte>, texts: seq<seq<byte>>)
    requires CountMarks(query) == |texts| > 0 && query[|query| - 1] == MARK
    ensures Written(query, texts, |texts| - 1) == |Naive(query, texts)|
  {
    hide Naive, MarkPos, CountMarks, Written;
    var p := MarkPos(query, |texts| - 1);
    WrittenAndRest(query, texts, |texts| - 1);
    LastBehind(query);
    assert query[p + 1..] == [];
    assert texts[|texts|..] == [];
    NaiveNoMarks([]);
  }

  /** The limit one below the interpolated query's packet. */
  lemma {:induction false} ExceedsLimit(query: seq<byte>, args: seq<Arg>, session: Session)
    requires AllInRange(args) && CountMarks(query) == |args| && AllShown(args, session) && !EndsInValue(query, args)
    ensures !KeepsLimit(query, args, session, |Naive(query, Texts(args, session))| + 3)
  {
    hide Walk, CountMarks, Render, Naive, AllInRange, AllShown, Texts, Written, EndsInValue;
    var texts := Texts(args, session);
    var limit := |Naive(query, texts)| + 3;
    var other := session.(maxAllowedPacket := limit);
    SameTexts(args, session, limit);
    forall j | 0 <= j < |args|
      ensures args[j].Nil? || 0 + Written(query, texts, j) + 4 <= limit
    {
      if !args[j].Nil? {
        MoreBehind(query, args, session, j);
      }
    }
    assert Fits(query, args, 0, other);
    WalkIsNaive(query, args, 0, other);
  }

  lemma {:induction false} LimitHolds(query: seq<byte>, args: seq<Arg>, session: Session, limit: nat)
    requires AllInRange(args) && CountMarks(query) == |args|
    requires !AllShown(args, session) || EndsInValue(query, args)
    ensures KeepsLimit(query, args, session, limit)
  {
    hide Walk, CountMarks, Render, Naive, AllInRange, AllShown, Texts, Written;
    var other := session.(maxAllowedPacket := limit);
    SameTexts(args, session, limit);
    WalkIsNaive(query, args, 0, other);
    if AllShown(args, session) && Walk(query, args, 0, other).Query? {
      NothingBehind(query, Texts(args, other));
      assert Fits(query, args, 0, other);
    }
  }

  /** Under every limit the returned query fits the limit, if and only if there is nothing to
      return, or the query ends in a mark whose argument is not the untyped nil. */
  lemma {:induction false} LimitIsKept(query: seq<byte>, args: seq<Arg>, session: Session)
    requires AllInRange(args) && CountMarks(query) == |args|
    ensures (forall limit: nat :: KeepsLimit(query, args, session, limit))
            <==> !AllShown(args, session) || EndsInValue(query, args)
  {
    hide CountMarks, Naive, AllInRange, AllShown, Texts, KeepsLimit, EndsInValue;
    if AllShown(args, session) && !EndsInValue(query, args) {
      ExceedsLimit(query, args, session);
    } else {
      forall limit: nat
        ensures KeepsLimit(query, args, session, limit)
      {
        LimitHolds(query, args, session, limit);
      }
    }
  }

  /** Two queries that are returned although no packet may hold them: one without marks, and one
      that ends in the mark of an untyped nil. */
  lemma {:induction false} LimitExamples(session: Session)
    requires session.maxAllowedPacket == 0
    ensures CountMarks([65]) == 0 && Walk([65], [], 0, session) == Query([65])
    ensures InRange(Nil) && CountMarks([MARK]) == 1 && Walk([MARK], [Nil], 0, session) == Query(NullText())
  {
    assert [65][1..] == [] && [MARK][1..] == [];
    WalkStep([65], [], 0, session);
    WalkStep([MARK], [Nil], 0, session);
    WalkStep([], [], 4, session);
    assert [MARK][..0] + NullText() == NullText() && [Nil][1..] == [];
    assert NullText() + [] == NullText();
  }
}
