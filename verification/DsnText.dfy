// Cutting and joining strings, and the query escaping of net/url, as the DSN functions use them.
// A Go string is a sequence of bytes; here it is a string of characters below 256.
module DsnText {

  datatype Option<T> = None | Some(value: T)

  predicate IsBytes(s: string)
  {
    forall c | c in s :: c < 256 as char
  }

  /** The first place of c in s; |s| if there is none. */
  function FirstIndex(s: string, c: char): (k: nat)
    ensures k <= |s| && c !in s[..k] && (k < |s| ==> s[k] == c)
  {
    if s == [] || s[0] == c then 0
    else
      var k := FirstIndex(s[1..], c);
      assert s[..k + 1] == [s[0]] + s[1..][..k];
      k + 1
  }

  /** The last place of c in s; -1 if there is none. */
  function LastIndex(s: string, c: char): (k: int)
    ensures -1 <= k < |s| && (forall i | k < i < |s| :: s[i] != c) && (k >= 0 ==> s[k] == c)
  {
    if s == [] then -1
    else if s[|s| - 1] == c then |s| - 1
    else LastIndex(s[..|s| - 1], c)
  }

  lemma {:induction false} NoneBehindLast(s: string, c: char)
    ensures c !in s[LastIndex(s, c) + 1..]
  {}

  lemma {:induction false} Parts<T>(a: seq<T>, c: T, b: seq<T>)
    ensures (a + [c] + b)[..|a|] == a && (a + [c] + b)[|a| + 1..] == b
  {}

  lemma {:induction false} SliceOfSlice<T>(s: seq<T>, start: nat, end: nat, x: nat, y: nat)
    requires x <= y <= end - start && start <= end <= |s|
    ensures s[start..end][x..y] == s[start + x..start + y]
  {
    var t, u := s[start..end][x..y], s[start + x..start + y];
    assert |t| == |u| && forall j | 0 <= j < |t| :: t[j] == s[start..end][x + j] == u[j];
  }

  lemma {:induction false} FirstIndexIs(a: string, c: char, b: string)
    requires c !in a
    ensures FirstIndex(a + [c] + b, c) == |a|
  {
    if a != [] {
      assert a[0] in a && forall d | d in a[1..] :: d in a;
      assert (a + [c] + b)[1..] == a[1..] + [c] + b;
      FirstIndexIs(a[1..], c, b);
    }
  }

  lemma {:induction false} LastIndexIs(a: string, c: char, b: string)
    requires c !in b
    ensures LastIndex(a + [c] + b, c) == |a|
  {
    if b == [] {
      assert a + [c] + b == a + [c];
    } else {
      var front, last := b[..|b| - 1], b[|b| - 1];
      assert last in b && forall d | d in front :: d in b;
      assert (a + [c] + b)[..|a| + |b|] == a + [c] + front;
      LastIndexIs(a, c, front);
    }
  }

  lemma {:induction false} NoFirstIndex(s: string, c: char)
    requires c !in s
    ensures FirstIndex(s, c) == |s|
  {
    if s != [] {
      assert s[0] in s && forall d | d in s[1..] :: d in s;
      NoFirstIndex(s[1..], c);
    }
  }

  lemma {:induction false} NoLastIndex(s: string, c: char)
    requires c !in s
    ensures LastIndex(s, c) == -1
  {
    if s != [] {
      assert s[|s| - 1] in s && forall d | d in s[..|s| - 1] :: d in s;
      NoLastIndex(s[..|s| - 1], c);
    }
  }

  /** strings.Split by a one-character separator. */
  function Split(s: string, sep: char): (parts: seq<string>)
    ensures parts != []
    decreases |s|
  {
    var k := FirstIndex(s, sep);
    if k == |s| then [s] else [s[..k]] + Split(s[k + 1..], sep)
  }

  function Join(parts: seq<string>, sep: char): string
    requires parts != []
  {
    if |parts| == 1 then parts[0] else parts[0] + [sep] + Join(parts[1..], sep)
  }

  lemma {:induction false} SplitJoin(parts: seq<string>, sep: char)
    requires parts != [] && forall p | p in parts :: sep !in p
    ensures Split(Join(parts, sep), sep) == parts
  {
    var p := parts[0];
    assert p in parts;
    if |parts| == 1 {
      NoFirstIndex(p, sep);
      assert parts == [p];
    } else {
      var rest := Join(parts[1..], sep);
      assert forall q | q in parts[1..] :: q in parts;
      SplitJoin(parts[1..], sep);
      var s := p + [sep] + rest;
      FirstIndexIs(p, sep, rest);
      assert s[..|p|] == p && s[|p| + 1..] == rest;
      assert parts == [p] + parts[1..];
    }
  }

  lemma {:induction false} JoinSnoc(parts: seq<string>, last: string, sep: char)
    requires parts != []
    ensures Join(parts + [last], sep) == Join(parts, sep) + [sep] + last
  {
    if |parts| == 1 {
      assert (parts + [last])[1..] == [last];
    } else {
      assert (parts + [last])[1..] == parts[1..] + [last];
      JoinSnoc(parts[1..], last, sep);
    }
  }

  lemma {:induction false} NotInJoin(parts: seq<string>, sep: char, c: char)
    requires parts != [] && c != sep && forall p | p in parts :: c !in p
    ensures c !in Join(parts, sep)
  {
    assert parts[0] in parts;
    if |parts| > 1 {
      assert forall p | p in parts[1..] :: p in parts;
      NotInJoin(parts[1..], sep, c);
    }
  }

  /** Every part of a split lacks the separator, and every character of it was in the text. */
  lemma {:induction false} SplitParts(s: string, sep: char, p: string)
    requires p in Split(s, sep)
    ensures sep !in p && forall c | c in p :: c in s
    decreases |s|
  {
    var k := FirstIndex(s, sep);
    if k == |s| {
      assert s[..k] == s;
    } else if p in Split(s[k + 1..], sep) {
      SplitParts(s[k + 1..], sep, p);
    } else {
      assert p == s[..k];
    }
  }

  // ---- url.QueryEscape and url.QueryUnescape -------------------------------------------------

  predicate Unreserved(c: char)
  {
    'a' <= c <= 'z' || 'A' <= c <= 'Z' || '0' <= c <= '9' || c == '-' || c == '_' || c == '.' || c == '~'
  }

  function HexDigit(n: nat): char
    requires n < 16
  {
    if n < 10 then (48 + n) as char else (55 + n) as char
  }

  function Unhex(c: char): Option<nat>
  {
    if '0' <= c <= '9' then Some(c as int - 48)
    else if 'A' <= c <= 'F' then Some(c as int - 55)
    else if 'a' <= c <= 'f' then Some(c as int - 87)
    else None
  }

  function EscapeChar(c: char): (e: string)
    ensures e != []
  {
    if Unreserved(c) then [c]
    else if c == ' ' then ['+']
    else ['%', HexDigit(c as int / 16 % 16), HexDigit(c as int % 16)]
  }

  function QueryEscape(s: string): string
  {
    if s == [] then [] else EscapeChar(s[0]) + QueryEscape(s[1..])
  }

  function Cons(c: char, r: Option<string>): Option<string>
  {
    match r case None => None case Some(s) => Some([c] + s)
  }

  function QueryUnescape(s: string): Option<string>
  {
    if s == [] then Some([])
    else if s[0] == '%' then
      if |s| < 3 then None
      else match (Unhex(s[1]), Unhex(s[2]))
           case (Some(a), Some(b)) => Cons((16 * a + b) as char, QueryUnescape(s[3..]))
           case _ => None
    else Cons(if s[0] == '+' then ' ' else s[0], QueryUnescape(s[1..]))
  }

  lemma {:induction false} UnescapeChar(c: char, t: string)
    requires c < 256 as char
    ensures QueryUnescape(EscapeChar(c) + t) == Cons(c, QueryUnescape(t))
  {
    var e := EscapeChar(c);
    assert (e + t)[|e|..] == t;
  }

  lemma {:induction false} UnescapeEscape(s: string)
    requires IsBytes(s)
    ensures QueryUnescape(QueryEscape(s)) == Some(s)
  {
    if s != [] {
      assert s[0] in s && forall c | c in s[1..] :: c in s;
      hide EscapeChar;
      UnescapeEscape(s[1..]);
      UnescapeChar(s[0], QueryEscape(s[1..]));
      assert s == [s[0]] + s[1..];
    }
  }

  /** What an escaped text consists of. */
  predicate EscapedChar(c: char)
  {
    Unreserved(c) || c == '+' || c == '%'
  }

  lemma {:induction false} EscapeIsSafe(s: string)
    ensures forall c | c in QueryEscape(s) :: EscapedChar(c)
  {
    if s != [] {
      EscapeIsSafe(s[1..]);
    }
  }
}
