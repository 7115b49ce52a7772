/** Sorting by a strict order, and why a sorted list does not depend on where it came from. */
module Ordering {

  /** Lexicographic order on identifiers. */
  predicate Less(a: string, b: string)
  {
    b != [] && (a == [] || a[0] < b[0] || (a[0] == b[0] && Less(a[1..], b[1..])))
  }

  /** a and b agree on their first k characters, and then a ends or has the smaller one. */
  predicate SmallerAt(a: string, b: string, k: nat)
  {
    k <= |a| && k < |b| && a[..k] == b[..k] && (k == |a| || a[k] < b[k])
  }

  lemma {:induction false} LessIffSmallerSomewhere(a: string, b: string)
    ensures Less(a, b) <==> exists k: nat :: SmallerAt(a, b, k)
  {
    if a == [] {
      assert b != [] ==> SmallerAt(a, b, 0);
    } else if b != [] {
      if a[0] == b[0] {
        LessIffSmallerSomewhere(a[1..], b[1..]);
        if k: nat :| SmallerAt(a[1..], b[1..], k) {
          assert a[..k + 1] == [a[0]] + a[1..][..k] && b[..k + 1] == [b[0]] + b[1..][..k];
          assert SmallerAt(a, b, k + 1);
        }
        if k: nat :| SmallerAt(a, b, k) {
          SmallerInTail(a, b, k);
        }
      } else {
        assert a[0] < b[0] ==> SmallerAt(a, b, 0);
        forall k: nat | SmallerAt(a, b, k) ensures a[0] < b[0] {
          assert k > 0 ==> a[..k][0] == b[..k][0];
        }
      }
    }
  }

  lemma SmallerInTail(a: string, b: string, k: nat)
    requires SmallerAt(a, b, k) && a != [] && a[0] == b[0]
    ensures SmallerAt(a[1..], b[1..], k - 1)
  {
    assert a[1..][..k - 1] == a[..k][1..] && b[1..][..k - 1] == b[..k][1..];
  }

  lemma {:induction false} LessTransitive(a: string, b: string, c: string)
    requires Less(a, b) && Less(b, c)
    ensures Less(a, c)
  {
    if a != [] && a[0] == b[0] && b[0] == c[0] {
      LessTransitive(a[1..], b[1..], c[1..]);
    }
  }

  lemma {:induction false} LessIrreflexive(a: string)
    ensures !Less(a, a)
  {
    if a != [] { LessIrreflexive(a[1..]); }
  }

  lemma {:induction false} LessConnected(a: string, b: string)
    ensures Less(a, b) || a == b || Less(b, a)
  {
    if a != [] && b != [] && a[0] == b[0] {
      LessConnected(a[1..], b[1..]);
      assert a == [a[0]] + a[1..] && b == [b[0]] + b[1..];
    }
  }

  /** Strictly increasing identifiers: each before all later ones. */
  predicate Ranked(ids: seq<string>)
  {
    forall i, j :: 0 <= i < j < |ids| ==> Less(ids[i], ids[j])
  }

  /** Where an identifier belongs in a ranked list. */
  function Rank(ids: seq<string>, id: string): (n: nat)
    ensures n <= |ids|
    ensures forall i :: 0 <= i < n ==> Less(ids[i], id)
    ensures n < |ids| ==> !Less(ids[n], id)
  {
    if ids == [] || !Less(ids[0], id) then 0 else 1 + Rank(ids[1..], id)
  }

  lemma InsertKeepsRanked(ids: seq<string>, id: string)
    requires Ranked(ids) && id !in ids
    ensures var n := Rank(ids, id); Ranked(ids[..n] + [id] + ids[n..])
  {
    var n := Rank(ids, id);
    forall j | n <= j < |ids| ensures Less(id, ids[j]) {
      LessConnected(id, ids[n]);
      if j > n { LessTransitive(id, ids[n], ids[j]); }
    }
  }

  /** Two ranked lists of the same identifiers are the same list. */
  lemma {:induction false} RankedUnique(a: seq<string>, b: seq<string>)
    requires Ranked(a) && Ranked(b)
    requires forall x :: x in a <==> x in b
    ensures a == b
  {
    assert b != [] ==> b[0] in b && b[0] in a;
    if a != [] {
      assert a[0] in a && a[0] in b;
      SameFirst(a, b);
      TailMembers(a);
      TailMembers(b);
      RankedUnique(a[1..], b[1..]);
      assert a == [a[0]] + a[1..] && b == [b[0]] + b[1..];
    }
  }

  lemma SameFirst(a: seq<string>, b: seq<string>)
    requires Ranked(a) && Ranked(b) && a != [] && b != []
    requires forall x :: x in a <==> x in b
    ensures a[0] == b[0]
  {
    assert a[0] in b && b[0] in a;
    var i :| 0 <= i < |b| && b[i] == a[0];
    var j :| 0 <= j < |a| && a[j] == b[0];
    if i > 0 && j > 0 {
      LessTransitive(a[0], a[j], b[i]);
      LessIrreflexive(a[0]);
    }
  }

  lemma TailMembers(a: seq<string>)
    requires Ranked(a) && a != []
    ensures forall x :: x in a[1..] <==> x in a && x != a[0]
  {
    forall x ensures x in a[1..] <==> x in a && x != a[0] {
      if x in a[1..] { LessIrreflexive(a[0]); }
    }
  }
}
