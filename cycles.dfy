/**
 * The one-hop cycle filter behind `findCircularRef`: for each object the
 * collector left in its garbage list, keep that object's referrer list when
 * the object is among its own referrers.
 */
module CycleFilter {

  import opened Snapshots

  /** The test `any(ref is ob for ref in referrers)`: `ob` refers to itself directly. */
  predicate RefersToItself(ob: ObjectId, referrersOf: ObjectId -> seq<ObjectId>)
  {
    ob in referrersOf(ob)
  }

  /**
   * The list `findCircularRef` returns for garbage list `garbage`, in garbage
   * order. Written from the back, so that it grows the way the loop appends.
   */
  function CircularRefs(garbage: seq<ObjectId>, referrersOf: ObjectId -> seq<ObjectId>): seq<seq<ObjectId>>
  {
    if garbage == [] then []
    else
      var ob := garbage[|garbage| - 1];
      CircularRefs(garbage[..|garbage| - 1], referrersOf)
        + (if RefersToItself(ob, referrersOf) then [referrersOf(ob)] else [])
  }

  /**
   * The positions, in increasing order, of the garbage objects that refer to
   * themselves: an independent description of which entries are kept.
   */
  function FlaggedIndices(garbage: seq<ObjectId>, referrersOf: ObjectId -> seq<ObjectId>): (idx: seq<nat>)
    ensures |idx| <= |garbage|
    ensures forall k :: 0 <= k < |idx| ==> idx[k] < |garbage|
    ensures forall k, l :: 0 <= k < l < |idx| ==> idx[k] < idx[l]
    ensures forall i :: 0 <= i < |garbage| ==> (i in idx <==> RefersToItself(garbage[i], referrersOf))
  {
    if garbage == [] then []
    else
      var n := |garbage| - 1;
      var front := FlaggedIndices(garbage[..n], referrersOf);
      assert forall i :: 0 <= i < n ==> garbage[..n][i] == garbage[i];
      front + (if RefersToItself(garbage[n], referrersOf) then [n] else [])
  }

  /**
   * The result is exactly the referrer lists of the self-referring garbage
   * objects, one per such object, in the order the garbage list holds them.
   */
  lemma {:induction false} CircularRefsExactly(garbage: seq<ObjectId>, referrersOf: ObjectId -> seq<ObjectId>)
    ensures |CircularRefs(garbage, referrersOf)| == |FlaggedIndices(garbage, referrersOf)|
    ensures forall k :: 0 <= k < |FlaggedIndices(garbage, referrersOf)| ==>
      CircularRefs(garbage, referrersOf)[k] == referrersOf(garbage[FlaggedIndices(garbage, referrersOf)[k]])
  {
    if garbage != [] {
      var n := |garbage| - 1;
      var prefix := garbage[..n];
      CircularRefsExactly(prefix, referrersOf);
      var front := FlaggedIndices(prefix, referrersOf);
      var frontRefs := CircularRefs(prefix, referrersOf);
      var idx := FlaggedIndices(garbage, referrersOf);
      var refs := CircularRefs(garbage, referrersOf);
      var tail: seq<nat> := if RefersToItself(garbage[n], referrersOf) then [n] else [];
      var tailRefs := if RefersToItself(garbage[n], referrersOf) then [referrersOf(garbage[n])] else [];
      assert idx == front + tail;
      assert refs == frontRefs + tailRefs;
      forall k | 0 <= k < |idx|
        ensures refs[k] == referrersOf(garbage[idx[k]])
      {
        if k < |front| {
          assert prefix[front[k]] == garbage[front[k]];
        }
      }
    }
  }

  /** At most one entry per garbage object. */
  lemma CircularRefsBounded(garbage: seq<ObjectId>, referrersOf: ObjectId -> seq<ObjectId>)
    ensures |CircularRefs(garbage, referrersOf)| <= |garbage|
  {
    CircularRefsExactly(garbage, referrersOf);
  }

  /** Every returned list contains the garbage object it was computed for. */
  lemma EntryHoldsItsObject(garbage: seq<ObjectId>, referrersOf: ObjectId -> seq<ObjectId>, k: nat)
    requires k < |CircularRefs(garbage, referrersOf)|
    ensures exists i :: 0 <= i < |garbage| && garbage[i] in CircularRefs(garbage, referrersOf)[k]
                        && CircularRefs(garbage, referrersOf)[k] == referrersOf(garbage[i])
  {
    CircularRefsExactly(garbage, referrersOf);
    var i := FlaggedIndices(garbage, referrersOf)[k];
    assert garbage[i] in CircularRefs(garbage, referrersOf)[k];
  }

  /** Every self-referring garbage object contributes its referrer list. */
  lemma EveryCycleReported(garbage: seq<ObjectId>, referrersOf: ObjectId -> seq<ObjectId>, i: nat)
    requires i < |garbage| && RefersToItself(garbage[i], referrersOf)
    ensures referrersOf(garbage[i]) in CircularRefs(garbage, referrersOf)
  {
    CircularRefsExactly(garbage, referrersOf);
    var idx := FlaggedIndices(garbage, referrersOf);
    var k :| 0 <= k < |idx| && idx[k] == i;
    assert CircularRefs(garbage, referrersOf)[k] == referrersOf(garbage[i]);
  }

  /** Nothing is reported exactly when no garbage object refers to itself. */
  lemma NoneReportedIff(garbage: seq<ObjectId>, referrersOf: ObjectId -> seq<ObjectId>)
    ensures CircularRefs(garbage, referrersOf) == [] <==>
      forall i :: 0 <= i < |garbage| ==> !RefersToItself(garbage[i], referrersOf)
  {
    CircularRefsExactly(garbage, referrersOf);
    var idx := FlaggedIndices(garbage, referrersOf);
    if idx != [] {
      assert idx[0] in idx;
    }
  }

  /** Filtering a concatenated garbage list filters each part in turn. */
  lemma {:induction false} CircularRefsAppend(a: seq<ObjectId>, b: seq<ObjectId>, referrersOf: ObjectId -> seq<ObjectId>)
    ensures CircularRefs(a + b, referrersOf) == CircularRefs(a, referrersOf) + CircularRefs(b, referrersOf)
  {
    if b == [] {
      assert a + b == a;
    } else {
      var n := |b| - 1;
      assert (a + b)[..|a + b| - 1] == a + b[..n];
      CircularRefsAppend(a, b[..n], referrersOf);
    }
  }

  /**
   * The check looks one hop only: in a two-object cycle A -> B -> A neither
   * object is its own referrer, so nothing is reported.
   */
  lemma TwoCycleNotReported(a: ObjectId, b: ObjectId, referrersOf: ObjectId -> seq<ObjectId>)
    requires a != b && referrersOf(a) == [b] && referrersOf(b) == [a]
    ensures CircularRefs([a, b], referrersOf) == []
  {
    NoneReportedIff([a, b], referrersOf);
  }

  /** A strictly acyclic chain A -> B -> C is not reported. */
  lemma AcyclicChainNotReported(a: ObjectId, b: ObjectId, c: ObjectId, referrersOf: ObjectId -> seq<ObjectId>)
    requires a != b && b != c && a != c
    requires referrersOf(a) == [] && referrersOf(b) == [a] && referrersOf(c) == [b]
    ensures CircularRefs([a, b, c], referrersOf) == []
  {
    NoneReportedIff([a, b, c], referrersOf);
  }

  /**
   * Of three garbage objects of which only the first refers to itself (a
   * self-loop beside an acyclic chain, say), only the first one's referrer
   * list is returned.
   */
  lemma SelfLoopReported(a: ObjectId, b: ObjectId, c: ObjectId, referrersOf: ObjectId -> seq<ObjectId>)
    requires RefersToItself(a, referrersOf)
    requires !RefersToItself(b, referrersOf) && !RefersToItself(c, referrersOf)
    ensures CircularRefs([a, b, c], referrersOf) == [referrersOf(a)]
  {
    assert [a, b, c][..2] == [a, b];
    assert [a, b][..1] == [a];
    assert [a][..0] == [];
    assert CircularRefs([a], referrersOf) == [referrersOf(a)];
    assert CircularRefs([a, b], referrersOf) == [referrersOf(a)];
  }
}
