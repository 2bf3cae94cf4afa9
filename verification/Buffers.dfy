/** Writing into a caller's buffer: what copy(buf[at:], src) and single-element stores leave behind. */
module Buffers {
  import opened Octets

  /** s with t written over it from position at on. */
  ghost function Splice<T>(s: seq<T>, at: nat, t: seq<T>): (r: seq<T>)
    requires at + |t| <= |s|
    ensures |r| == |s|
  {
    s[..at] + t + s[at + |t|..]
  }

  /** Two writes side by side are one write of the concatenation. */
  lemma SpliceAdjacent<T>(s: seq<T>, at: nat, t: seq<T>, u: seq<T>)
    requires at + |t| + |u| <= |s|
    ensures Splice(Splice(s, at, t), at + |t|, u) == Splice(s, at, t + u)
  {
  }

  lemma SpliceNothing<T>(s: seq<T>, at: nat)
    requires at <= |s|
    ensures Splice(s, at, []) == s
  {
  }

  lemma SpliceOneMore<T>(s: seq<T>, at: nat, t: seq<T>, x: T)
    requires at + |t| < |s|
    ensures Splice(s, at, t)[at + |t| := x] == Splice(s, at, t + [x])
  {
  }

  lemma SpliceBeyond<T>(s: seq<T>, at: nat, t: seq<T>, i: nat, j: nat)
    requires at + |t| <= i <= j <= |s|
    ensures Splice(s, at, t)[i..j] == s[i..j]
  {
  }

  lemma SpliceAll<T>(s: seq<T>, t: seq<T>)
    requires |t| == |s|
    ensures Splice(s, 0, t) == t
  {
  }

  /** copy(buf[at:], src) when src fits. */
  method Copy<T>(buf: array<T>, at: nat, src: seq<T>)
    requires at + |src| <= buf.Length
    modifies buf
    ensures buf[..] == Splice(old(buf[..]), at, src)
  {
    hide Splice;
    var i := 0;
    SpliceNothing(buf[..], at);
    while i < |src|
      invariant 0 <= i <= |src|
      invariant buf[..] == Splice(old(buf[..]), at, src[..i])
    {
      ghost var sofar := buf[..];
      buf[at + i] := src[i];
      assert buf[..] == sofar[at + i := src[i]];
      assert src[..i + 1] == src[..i] + [src[i]];
      SpliceOneMore(old(buf[..]), at, src[..i], src[i]);
      i := i + 1;
    }
    assert src[..i] == src;
  }

  /** Writes more after what is already written: the invariant of every marshaller. */
  method Append<T>(buf: array<T>, ghost before: seq<T>, ghost at: nat, ghost done: seq<T>, pos: nat, src: seq<T>)
    returns (next: nat)
    requires |before| == buf.Length && at + |done| + |src| <= buf.Length
    requires pos == at + |done| && buf[..] == Splice(before, at, done)
    modifies buf
    ensures next == pos + |src| && buf[..] == Splice(before, at, done + src)
  {
    Copy(buf, pos, src);
    SpliceAdjacent(before, at, done, src);
    next := pos + |src|;
  }

  /** A run of copies and stores; where the buffer ends too soon, a store panics. */
  method Put(buf: array<char>, ghost before: seq<char>, ghost done: seq<char>, pos: nat, src: string)
    returns (r: Option<nat>)
    requires |before| == buf.Length && |done| <= buf.Length
    requires pos == |done| && buf[..] == Splice(before, 0, done)
    modifies buf
    ensures r.Some? <==> |done| + |src| <= buf.Length
    ensures r.Some? ==> r.value == |done + src| && buf[..] == Splice(before, 0, done + src)
  {
    if pos + |src| > buf.Length { return None; }
    var n := Append(buf, before, 0, done, pos, src);
    r := Some(n);
  }
}
