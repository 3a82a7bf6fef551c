/** The corpus of poems the quiz draws from: the records, their ids, lookup by
    id and the pool of decoy second halves for a question. */
module Poems {

  datatype Option<T> = None | Some(value: T)

  /** One poem record of the corpus file. */
  datatype Poem = Poem(
    id: int,
    upper: string,
    lower: string,
    readingUpper: string,
    readingLower: string,
    author: string,
    description: string)

  /** No element occurs twice. */
  predicate Distinct<T(==)>(s: seq<T>) {
    forall i, j :: 0 <= i < j < |s| ==> s[i] != s[j]
  }

  /** Distinct elements stay distinct under any rearrangement. */
  lemma {:induction false} DistinctPermutation<T>(a: seq<T>, b: seq<T>)
    requires multiset(a) == multiset(b)
    requires Distinct(a)
    ensures Distinct(b)
  {
    forall i, j | 0 <= i < j < |b| ensures b[i] != b[j] {
      if b[i] == b[j] {
        var x := b[i];
        assert multiset(b)[x] >= 2 by {
          assert b == b[..i] + [x] + b[i + 1..j] + [x] + b[j + 1..];
        }
        DistinctCount(a, x);
        assert false;
      }
    }
  }

  /** A sequence without repeats holds each value at most once. */
  lemma {:induction false} DistinctCount<T>(a: seq<T>, x: T)
    requires Distinct(a)
    ensures multiset(a)[x] <= 1
  {
    if a != [] {
      assert a == [a[0]] + a[1..];
      assert Distinct(a[1..]) by {
        forall i, j | 0 <= i < j < |a| - 1 ensures a[1..][i] != a[1..][j] {
          assert a[i + 1] != a[j + 1];
        }
      }
      DistinctCount(a[1..], x);
      if a[0] == x {
        assert x !in a[1..] by {
          forall k | 0 <= k < |a| - 1 ensures a[1..][k] != x {
            assert a[0] != a[k + 1];
          }
        }
      }
    }
  }

  /** The ids of the corpus, in corpus order. */
  function Ids(corpus: seq<Poem>): (r: seq<int>)
    ensures |r| == |corpus|
    ensures forall k :: 0 <= k < |corpus| ==> r[k] == corpus[k].id
  {
    if corpus == [] then [] else [corpus[0].id] + Ids(corpus[1..])
  }

  /** The corpus invariant: every id is used by one poem only. */
  predicate UniqueIds(corpus: seq<Poem>) {
    Distinct(Ids(corpus))
  }

  /** No two poems share a second half. */
  predicate DistinctLowers(corpus: seq<Poem>) {
    forall i, j :: 0 <= i < j < |corpus| ==> corpus[i].lower != corpus[j].lower
  }

  /** The first poem with the given id, or None when no poem has it. */
  function FindPoem(corpus: seq<Poem>, id: int): (r: Option<Poem>)
    ensures r.Some? <==> id in Ids(corpus)
    ensures r.Some? ==> r.value.id == id && r.value in corpus
  {
    if corpus == [] then None
    else if corpus[0].id == id then Some(corpus[0])
    else FindPoem(corpus[1..], id)
  }

  /** With unique ids, the poem found is the one poem that carries the id. */
  lemma {:induction false} FindPoemUnique(corpus: seq<Poem>, k: nat)
    requires UniqueIds(corpus)
    requires k < |corpus|
    ensures FindPoem(corpus, corpus[k].id) == Some(corpus[k])
  {
    if k > 0 {
      assert Ids(corpus)[0] != Ids(corpus)[k];
      assert UniqueIds(corpus[1..]) by {
        forall i, j | 0 <= i < j < |corpus| - 1
          ensures Ids(corpus[1..])[i] != Ids(corpus[1..])[j]
        {
          assert Ids(corpus)[i + 1] != Ids(corpus)[j + 1];
        }
      }
      FindPoemUnique(corpus[1..], k - 1);
    }
  }

  /** The second halves of every poem whose id differs from `id`, in corpus
      order: the candidates for the wrong options. */
  function DecoyPool(corpus: seq<Poem>, id: int): (r: seq<string>)
    ensures |r| <= |corpus|
  {
    if corpus == [] then []
    else if corpus[0].id == id then DecoyPool(corpus[1..], id)
    else [corpus[0].lower] + DecoyPool(corpus[1..], id)
  }

  /** Every string of the pool is the second half of a poem with another
      id, and every such poem contributes its second half. */
  lemma {:induction false} DecoyPoolMembers(corpus: seq<Poem>, id: int)
    ensures forall x :: x in DecoyPool(corpus, id) ==> exists p :: p in corpus && p.id != id && p.lower == x
    ensures forall p :: p in corpus && p.id != id ==> p.lower in DecoyPool(corpus, id)
  {
    if corpus != [] {
      DecoyPoolMembers(corpus[1..], id);
      assert forall p :: p in corpus ==> p == corpus[0] || p in corpus[1..];
    }
  }

  /** A corpus without the id keeps every poem in the pool. */
  lemma {:induction false} DecoyPoolWithoutId(corpus: seq<Poem>, id: int)
    requires id !in Ids(corpus)
    ensures |DecoyPool(corpus, id)| == |corpus|
  {
    if corpus != [] {
      assert Ids(corpus)[0] == corpus[0].id;
      assert id !in Ids(corpus[1..]) by {
        assert forall k :: 0 <= k < |corpus| - 1 ==> Ids(corpus[1..])[k] == Ids(corpus)[k + 1];
      }
      DecoyPoolWithoutId(corpus[1..], id);
    }
  }

  /** With unique ids and the id present, the pool holds exactly one string
      fewer than the corpus has poems. So `random.sample(pool, 3)` succeeds
      exactly when the corpus has at least four poems. */
  lemma {:induction false} DecoyPoolSize(corpus: seq<Poem>, id: int)
    requires UniqueIds(corpus)
    requires id in Ids(corpus)
    ensures |DecoyPool(corpus, id)| == |corpus| - 1
  {
    var ids := Ids(corpus);
    assert forall k :: 0 <= k < |corpus| - 1 ==> Ids(corpus[1..])[k] == ids[k + 1];
    if corpus[0].id == id {
      assert id !in Ids(corpus[1..]) by {
        forall k | 0 <= k < |corpus| - 1 ensures Ids(corpus[1..])[k] != id {
          assert ids[0] != ids[k + 1];
        }
      }
      DecoyPoolWithoutId(corpus[1..], id);
    } else {
      assert UniqueIds(corpus[1..]) by {
        forall i, j | 0 <= i < j < |corpus| - 1
          ensures Ids(corpus[1..])[i] != Ids(corpus[1..])[j]
        {
          assert ids[i + 1] != ids[j + 1];
        }
      }
      var k :| 0 <= k < |ids| && ids[k] == id;
      assert k > 0;
      assert Ids(corpus[1..])[k - 1] == id;
      DecoyPoolSize(corpus[1..], id);
    }
  }

  /** With distinct second halves, the pool has no repeats and does not hold
      the second half of the poem with the id. */
  lemma {:induction false} DecoyPoolDistinct(corpus: seq<Poem>, id: int)
    requires DistinctLowers(corpus)
    ensures Distinct(DecoyPool(corpus, id))
    ensures forall p :: p in corpus && p.id == id ==> p.lower !in DecoyPool(corpus, id)
  {
    if corpus != [] {
      var rest := corpus[1..];
      assert DistinctLowers(rest) by {
        forall i, j | 0 <= i < j < |rest| ensures rest[i].lower != rest[j].lower {
          assert corpus[i + 1].lower != corpus[j + 1].lower;
        }
      }
      DecoyPoolDistinct(rest, id);
      DecoyPoolMembers(rest, id);
      assert corpus[0].lower !in DecoyPool(rest, id);
      forall p | p in corpus && p.id == id ensures p.lower !in DecoyPool(corpus, id) {
        if p != corpus[0] {
          assert p in rest;
          var j :| 0 <= j < |rest| && rest[j] == p;
          assert corpus[0].lower != corpus[j + 1].lower;
        }
      }
    }
  }

  /** The pool of a concatenation is the concatenation of the pools. */
  lemma {:induction false} DecoyPoolAppend(a: seq<Poem>, b: seq<Poem>, id: int)
    ensures DecoyPool(a + b, id) == DecoyPool(a, id) + DecoyPool(b, id)
  {
    if a == [] {
      assert a + b == b;
    } else {
      assert (a + b)[0] == a[0];
      assert (a + b)[1..] == a[1..] + b;
      DecoyPoolAppend(a[1..], b, id);
    }
  }

  /** Two poems without the id, at positions `i < j`, leave their second
      halves at two different positions `x < y` of the pool, in corpus order.
      So equal second halves give the pool a repeated entry. */
  lemma DecoyPoolPair(corpus: seq<Poem>, id: int, i: nat, j: nat) returns (x: nat, y: nat)
    requires i < j < |corpus| && corpus[i].id != id && corpus[j].id != id
    ensures x < y < |DecoyPool(corpus, id)|
    ensures DecoyPool(corpus, id)[x] == corpus[i].lower && DecoyPool(corpus, id)[y] == corpus[j].lower
  {
    var p1, p2, p3 := corpus[..i], corpus[i + 1..j], corpus[j + 1..];
    assert corpus == p1 + ([corpus[i]] + (p2 + ([corpus[j]] + p3)));
    DecoyPoolAppend(p1, [corpus[i]] + (p2 + ([corpus[j]] + p3)), id);
    DecoyPoolAppend([corpus[i]], p2 + ([corpus[j]] + p3), id);
    DecoyPoolAppend(p2, [corpus[j]] + p3, id);
    DecoyPoolAppend([corpus[j]], p3, id);
    assert DecoyPool([corpus[i]], id) == [corpus[i].lower];
    assert DecoyPool([corpus[j]], id) == [corpus[j].lower];
    x := |DecoyPool(p1, id)|;
    y := x + 1 + |DecoyPool(p2, id)|;
  }

  /** A poem without the id leaves its second half at some position of the
      pool. */
  lemma DecoyPoolAt(corpus: seq<Poem>, id: int, i: nat) returns (x: nat)
    requires i < |corpus| && corpus[i].id != id
    ensures x < |DecoyPool(corpus, id)| && DecoyPool(corpus, id)[x] == corpus[i].lower
  {
    var p1, p2 := corpus[..i], corpus[i + 1..];
    assert corpus == p1 + ([corpus[i]] + p2);
    DecoyPoolAppend(p1, [corpus[i]] + p2, id);
    DecoyPoolAppend([corpus[i]], p2, id);
    assert DecoyPool([corpus[i]], id) == [corpus[i].lower];
    x := |DecoyPool(p1, id)|;
  }
}
