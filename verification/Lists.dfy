/** QEMU's linked lists as sequences of ids, each id at most once. */
module Lists {

  predicate NoDup(s: seq<int>) {
    forall i, j :: 0 <= i < j < |s| ==> s[i] != s[j]
  }

  /** QLIST_REMOVE */
  function Without(s: seq<int>, e: int): seq<int> {
    if s == [] then [] else if s[0] == e then s[1..] else [s[0]] + Without(s[1..], e)
  }

  lemma {:induction false} WithoutOk(s: seq<int>, e: int)
    requires NoDup(s)
    ensures NoDup(Without(s, e)) && |Without(s, e)| == |s| - (if e in s then 1 else 0)
    ensures forall x :: x in Without(s, e) <==> x in s && x != e
  {
    if s != [] && s[0] != e {
      WithoutOk(s[1..], e);
      var r := Without(s[1..], e);
      assert s == [s[0]] + s[1..];
      assert s[0] !in r;
      forall i, j | 0 <= i < j < |[s[0]] + r| ensures ([s[0]] + r)[i] != ([s[0]] + r)[j] {
        if i == 0 { assert r[j - 1] in r; }
      }
    } else if s != [] {
      assert s == [s[0]] + s[1..];
    }
  }

  lemma {:induction false} SameElements(s: seq<int>, t: seq<int>)
    requires NoDup(s) && NoDup(t) && forall e :: e in s <==> e in t
    ensures multiset(s) == multiset(t)
  {
    forall e ensures multiset(s)[e] == multiset(t)[e] {
      CountNoDup(s, e);
      CountNoDup(t, e);
    }
  }

  lemma {:induction false} CountNoDup(s: seq<int>, e: int)
    requires NoDup(s)
    ensures multiset(s)[e] == if e in s then 1 else 0
  {
    if s != [] {
      assert s == [s[0]] + s[1..];
      CountNoDup(s[1..], e);
    }
  }

  function Members(s: seq<int>): set<int> {
    set x | x in s
  }

  /** The members of a prefix, one at a time. */
  lemma TakeOne(s: seq<int>, k: nat)
    requires k < |s| && NoDup(s)
    ensures s[k] !in Members(s[..k]) && Members(s[..k + 1]) == Members(s[..k]) + {s[k]}
  {
    assert s[..k + 1] == s[..k] + [s[k]];
  }
}
