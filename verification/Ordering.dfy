/** Sorting header names: octet-wise lexicographic order, and the one sorted list of a set. */
module Ordering {
  function Compare(a: string, b: string): (c: int)
    ensures c == 0 <==> a == b
  {
    if a == "" then if b == "" then 0 else -1
    else if b == "" then 1
    else if a[0] < b[0] then -1
    else if a[0] > b[0] then 1
    else
      assert a == [a[0]] + a[1..] && b == [b[0]] + b[1..];
      Compare(a[1..], b[1..])
  }

  predicate Less(a: string, b: string) {
    Compare(a, b) < 0
  }

  lemma {:induction false} Total(a: string, b: string)
    ensures a == b || Less(a, b) || Less(b, a)
    ensures !(Less(a, b) && Less(b, a))
  {
    if a == "" || b == "" || a[0] != b[0] {
    } else {
      Total(a[1..], b[1..]);
    }
  }

  lemma {:induction false} Transitive(a: string, b: string, c: string)
    requires Less(a, b) && Less(b, c)
    ensures Less(a, c)
  {
    if a == "" || a[0] != b[0] || b[0] != c[0] {
    } else {
      Transitive(a[1..], b[1..], c[1..]);
    }
  }

  predicate Increasing(s: seq<string>) {
    forall i, j :: 0 <= i < j < |s| ==> Less(s[i], s[j])
  }

  function Elements(s: seq<string>): (e: set<string>)
    ensures forall x :: x in e <==> x in s
  {
    set x | x in s
  }

  /** Insertion into an increasing list, after everything smaller. */
  function Insert(k: string, s: seq<string>): (r: seq<string>)
    ensures |r| == |s| + 1
  {
    if s == [] || Less(k, s[0]) then [k] + s else [s[0]] + Insert(k, s[1..])
  }

  lemma {:induction false} InsertKeeps(k: string, s: seq<string>)
    requires Increasing(s) && k !in s
    ensures Increasing(Insert(k, s))
    ensures Elements(Insert(k, s)) == Elements(s) + {k}
  {
    if s == [] {
    } else if Less(k, s[0]) {
      forall j | 0 <= j < |s| ensures Less(k, s[j]) {
        if j > 0 { Transitive(k, s[0], s[j]); }
      }
    } else {
      Total(k, s[0]);
      var t := s[1..];
      assert s == [s[0]] + t;
      InsertKeeps(k, t);
      var r := Insert(k, t);
      forall j | 0 <= j < |r| ensures Less(s[0], r[j]) {
        assert r[j] in Elements(r);
        if r[j] != k {
          var i :| 0 <= i < |t| && t[i] == r[j];
          assert t[i] == s[i + 1];
        }
      }
    }
  }

  /** The increasing list of the elements of ks. */
  ghost function SortedKeys(ks: set<string>): (r: seq<string>)
    ensures Increasing(r) && Elements(r) == ks
  {
    if ks == {} then []
    else
      var k :| k in ks;
      var t := SortedKeys(ks - {k});
      InsertKeeps(k, t);
      Insert(k, t)
  }

  lemma IncreasingTail(s: seq<string>)
    requires Increasing(s) && s != []
    ensures Increasing(s[1..]) && Elements(s[1..]) == Elements(s) - {s[0]}
  {
    assert s == [s[0]] + s[1..];
    assert forall i :: 0 <= i < |s[1..]| ==> s[1..][i] == s[i + 1] && Less(s[0], s[i + 1]);
  }

  /** There is only one: the order in which a map is walked cannot show in what is printed. */
  lemma {:induction false} OrderUnique(s: seq<string>, t: seq<string>)
    requires Increasing(s) && Increasing(t) && Elements(s) == Elements(t)
    ensures s == t
  {
    if s == [] {
      assert forall i :: 0 <= i < |t| ==> t[i] in Elements(t);
    } else {
      assert s[0] in Elements(s) && s[0] in t && t != [];
      assert t[0] in Elements(t) && t[0] in s;
      var i :| 0 <= i < |t| && t[i] == s[0];
      var j :| 0 <= j < |s| && s[j] == t[0];
      Total(s[0], t[0]);
      assert s[0] == t[0];
      IncreasingTail(s);
      IncreasingTail(t);
      OrderUnique(s[1..], t[1..]);
    }
  }
}
