/**
 * Numbering by a shared counter: the elements reached while the counter
 * stands at `j` are stored under `j + 1`, `j + 2`, and so on. Both the
 * Windows and the macOS back ends fill their id maps this way.
 */
module Numbering {

  /** The map holding `s[0]` under `j + 1`, `s[1]` under `j + 2`, and so on. */
  function Indexed<T>(j: nat, s: seq<T>): map<nat, T>
    decreases s
  {
    if s == [] then map[] else Indexed(j, s[..|s| - 1])[j + |s| := s[|s| - 1]]
  }

  /** The keys of `Indexed(j, s)` are exactly `j + 1`, ..., `j + |s|`, and key `j + 1 + i` holds `s[i]`. */
  lemma {:induction false} IndexedAt<T>(j: nat, s: seq<T>)
    ensures forall i :: j < i <= j + |s| ==> i in Indexed(j, s) && Indexed(j, s)[i] == s[i - j - 1]
    ensures forall i :: i in Indexed(j, s) ==> j < i <= j + |s|
    decreases s
  {
    if s != [] {
      var init := s[..|s| - 1];
      IndexedAt(j, init);
      assert forall i :: 0 <= i < |init| ==> init[i] == s[i];
    }
  }

  /** Numbering two runs one after the other is merging their maps. */
  lemma IndexedAppend<T>(j: nat, a: seq<T>, b: seq<T>)
    ensures Indexed(j, a + b) == Indexed(j, a) + Indexed(j + |a|, b)
  {
    var l := Indexed(j, a + b);
    var r := Indexed(j, a) + Indexed(j + |a|, b);
    IndexedAt(j, a + b);
    IndexedAt(j, a);
    IndexedAt(j + |a|, b);
    forall i | i in l
      ensures i in r && l[i] == r[i]
    {
      if i > j + |a| {
        assert (a + b)[i - j - 1] == b[i - (j + |a|) - 1];
      }
    }
    assert l.Keys == r.Keys;
  }

  /** One entry per element: the map has exactly as many entries as the sequence. */
  lemma {:induction false} IndexedSize<T>(j: nat, s: seq<T>)
    ensures |Indexed(j, s)| == |s|
    decreases s
  {
    if s != [] {
      IndexedSize(j, s[..|s| - 1]);
      IndexedAt(j, s[..|s| - 1]);
      assert j + |s| !in Indexed(j, s[..|s| - 1]);
    }
  }

  lemma IndexedOne<T>(j: nat, x: T)
    ensures Indexed(j, [x]) == map[j + 1 := x]
  {
    assert [x][..0] == [];
  }

  /** Merging maps is associative. */
  lemma MergeAssoc<K, V>(a: map<K, V>, b: map<K, V>, c: map<K, V>)
    ensures (a + b) + c == a + (b + c)
  {
  }
}
