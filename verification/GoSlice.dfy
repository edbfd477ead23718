// Go byte slices: a window on an array that other slices may share.
module GoSlice {
  import opened Bytes

  /** len bytes of arr starting at off. Every slice that the driver appends to runs to the
      end of its array, so its capacity is arr.Length - off. */
  datatype Slice = Slice(arr: array<byte>, off: nat, len: nat) {

    predicate Valid()
    {
      off + len <= arr.Length
    }

    function Cap(): nat
      requires Valid()
    {
      arr.Length - off
    }

    ghost function Contents(): (s: seq<byte>)
      requires Valid()
      reads arr
      ensures |s| == len
    {
      arr[off..off + len]
    }

    /** s[lo:hi]; as in Go, hi may reach past len up to the capacity. */
    function Sub(lo: nat, hi: nat): (s: Slice)
      requires Valid() && lo <= hi <= Cap()
      ensures s.Valid() && s.len == hi - lo
    {
      Slice(arr, off + lo, hi - lo)
    }
  }

  /** What stands behind the first k bytes of a window stays if these bytes alone change. */
  lemma {:induction false} RestStays(a: seq<byte>, b: seq<byte>, lo: nat, k: nat, hi: nat)
    requires lo + k <= hi <= |a| == |b| && forall i | lo + k <= i < hi :: b[i] == a[i]
    ensures b[lo + k..hi] == a[lo..hi][k..]
  {}

  lemma {:induction false} HeadStays(a: seq<byte>, b: seq<byte>, lo: nat, k: nat, hi: nat)
    requires lo + k <= hi <= |a| == |b| && forall i | lo <= i < lo + k :: b[i] == a[i]
    ensures b[lo..lo + k] == a[lo..hi][..k]
  {}

  lemma {:induction false} CutAt(a: seq<byte>, lo: nat, mid: nat, hi: nat)
    requires lo <= mid <= hi <= |a|
    ensures a[lo..hi] == a[lo..mid] + a[mid..hi]
  {}

  /** append(s, bs...): in place while the capacity lasts (overwriting whatever the array
      held behind s), otherwise into a new and larger array. */
  method Append(s: Slice, bs: seq<byte>) returns (r: Slice)
    requires s.Valid()
    modifies s.arr
    ensures r.Valid() && r.len == s.len + |bs|
    ensures r.Contents() == old(s.Contents()) + bs
    ensures s.len + |bs| <= s.Cap() ==> r.arr == s.arr && r.off == s.off
    ensures s.len + |bs| > s.Cap() ==> fresh(r.arr) && r.off == 0 && r.Cap() > s.Cap() && s.arr[..] == old(s.arr[..])
    ensures s.arr[..s.off + s.len] == old(s.arr[..s.off + s.len])
  {
    if s.len + |bs| <= s.Cap() {
      r := Slice(s.arr, s.off, s.len + |bs|);
      var at := s.off + s.len;
      forall k | 0 <= k < |bs| {
        s.arr[at + k] := bs[k];
      }
      assert s.arr[at..at + |bs|] == bs;
      assert r.Contents() == s.arr[s.off..at] + s.arr[at..at + |bs|];
    } else {
      r := Grow(s, bs);
    }
  }

  method Grow(s: Slice, bs: seq<byte>) returns (r: Slice)
    requires s.Valid()
    ensures r.Valid() && r.len == s.len + |bs| && r.Contents() == s.Contents() + bs
    ensures fresh(r.arr) && r.off == 0
  {
    var extra :| 0 <= extra;    // how much room Go leaves is up to the runtime
    var room := new byte[s.len + |bs| + extra];
    forall k | 0 <= k < s.len {
      room[k] := s.arr[s.off + k];
    }
    forall k | 0 <= k < |bs| {
      room[s.len + k] := bs[k];
    }
    r := Slice(room, 0, s.len + |bs|);
    assert room[..s.len] == s.Contents();
    assert room[s.len..s.len + |bs|] == bs;
    CutAt(room[..], 0, s.len, s.len + |bs|);
  }

  /** A slice of its own holding the given bytes: what a chain of appends to nil ends in. */
  method NewSlice(bs: seq<byte>) returns (r: Slice)
    ensures r.Valid() && fresh(r.arr) && r.Contents() == bs
  {
    var room := new byte[|bs|];
    forall k | 0 <= k < |bs| {
      room[k] := bs[k];
    }
    r := Slice(room, 0, |bs|);
    assert room[..] == bs;
  }
}
