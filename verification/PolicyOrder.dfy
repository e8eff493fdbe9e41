/** The order in which policies are rendered: by identifier, whatever the order in which
    they are stored (agent/nethelper/network.go:73-74). */
module PolicyOrder {
  import opened PolicyModel
  import opened StringOrder

  predicate Ordered(s: seq<Policy>) {
    forall i, j | 0 <= i < j < |s| :: Less(s[i].id, s[j].id)
  }

  function Insert(p: Policy, s: seq<Policy>): (r: seq<Policy>)
    ensures multiset(r) == multiset(s) + multiset{p}
  {
    if s == [] || !Less(s[0].id, p.id) then [p] + s
    else
      assert s == [s[0]] + s[1..];
      [s[0]] + Insert(p, s[1..])
  }

  function SortById(s: seq<Policy>): (r: seq<Policy>)
    ensures multiset(r) == multiset(s)
  {
    if s == [] then []
    else
      assert s == [s[0]] + s[1..];
      Insert(s[0], SortById(s[1..]))
  }

  lemma SameMembers(s: seq<Policy>, t: seq<Policy>)
    requires multiset(s) == multiset(t)
    ensures |s| == |t|
    ensures forall p :: p in s <==> p in t
  {
    assert |multiset(s)| == |multiset(t)|;
    forall p
      ensures p in s <==> p in t
    {
      assert p in s <==> p in multiset(s);
      assert p in t <==> p in multiset(t);
    }
  }

  lemma {:induction false} InsertOrdered(p: Policy, s: seq<Policy>)
    requires Ordered(s) && forall q | q in s :: q.id != p.id
    ensures Ordered(Insert(p, s))
  {
    var r := Insert(p, s);
    if s != [] && Less(s[0].id, p.id) {
      InsertOrdered(p, s[1..]);
      var rest := Insert(p, s[1..]);
      forall j | 0 <= j < |rest|
        ensures Less(s[0].id, rest[j].id)
      {
        assert rest[j] in multiset(rest);
        assert rest[j] in s[1..] || rest[j] == p;
      }
    } else if s != [] {
      LessTotal(s[0].id, p.id);
      assert s[0] in s;
      forall j | 0 <= j < |s|
        ensures Less(p.id, s[j].id)
      {
        if j > 0 {
          LessTransitive(p.id, s[0].id, s[j].id);
        }
      }
    }
  }

  lemma {:induction false} SortOrdered(s: seq<Policy>)
    requires DistinctIds(s)
    ensures Ordered(SortById(s))
  {
    if s != [] {
      SortOrdered(s[1..]);
      SameMembers(s[1..], SortById(s[1..]));
      forall q | q in SortById(s[1..])
        ensures q.id != s[0].id
      {
        assert q in s[1..];
      }
      InsertOrdered(s[0], SortById(s[1..]));
    }
  }

  lemma OrderedIsDistinct(s: seq<Policy>)
    requires Ordered(s)
    ensures DistinctIds(s)
  {
    forall i, j | 0 <= i < j < |s|
      ensures s[i].id != s[j].id
    {
      LessAsymmetric(s[i].id, s[j].id);
    }
  }

  ghost predicate SameSet(s: seq<Policy>, t: seq<Policy>) {
    forall p :: p in s <==> p in t
  }

  lemma TailMembers(s: seq<Policy>)
    requires Ordered(s) && s != []
    ensures forall p :: p in s[1..] <==> p in s && p != s[0]
  {
    forall j | 1 <= j < |s|
      ensures s[j] != s[0]
    {
      LessAsymmetric(s[0].id, s[j].id);
    }
  }

  lemma NoMembers(s: seq<Policy>, t: seq<Policy>)
    requires SameSet(s, t)
    ensures s == [] ==> t == []
  {
    if t != [] {
      assert t[0] in t;
    }
  }

  lemma HeadIsLeast(s: seq<Policy>, p: Policy)
    requires Ordered(s) && p in s && p != s[0]
    ensures Less(s[0].id, p.id)
  {
  }

  lemma {:induction false} OrderedUnique(s: seq<Policy>, t: seq<Policy>)
    requires Ordered(s) && Ordered(t) && SameSet(s, t)
    ensures s == t
  {
    if s != [] && t != [] {
      assert s[0] in t;
      assert t[0] in s;
      if s[0] != t[0] {
        HeadIsLeast(s, t[0]);
        HeadIsLeast(t, s[0]);
        LessAsymmetric(s[0].id, t[0].id);
        assert false;
      }
      TailMembers(s);
      TailMembers(t);
      OrderedUnique(s[1..], t[1..]);
      assert s == [s[0]] + s[1..] && t == [t[0]] + t[1..];
    } else {
      NoMembers(s, t);
      NoMembers(t, s);
    }
  }

  /** Sorting forgets the stored order. */
  lemma SortForgetsOrder(s: seq<Policy>, t: seq<Policy>)
    requires DistinctIds(s) && DistinctIds(t) && SameSet(s, t)
    ensures SortById(s) == SortById(t)
  {
    SortOrdered(s);
    SortOrdered(t);
    SameMembers(s, SortById(s));
    SameMembers(t, SortById(t));
    OrderedUnique(SortById(s), SortById(t));
  }
}
