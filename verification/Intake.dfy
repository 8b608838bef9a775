/**
 Partition of a feed's records into accepted and rejected ones, shared by the
 connectors: a record first claims its external id, then is built. A record
 whose id an earlier record claimed is rejected, whether or not that earlier
 record could be built.
 */
module Intake {
  import opened Wrappers

  /** How a connector reads one record. Neither function can tell where the record stands in the feed. */
  datatype Reader<!R, !Z> = Reader(claim: R -> Option<string>, build: R -> Option<Z>, idOf: Z -> string)

  /** Only records that claim an id are built, and what is built carries that id. */
  ghost predicate IsCoherent<R(!new), Z(!new)>(reader: Reader<R, Z>) {
    forall r :: reader.claim(r).Some? && reader.build(r).Some? ==>
                  reader.idOf(reader.build(r).value) == reader.claim(r).value
  }

  predicate IsClaimed<R, Z>(reader: Reader<R, Z>, id: string, earlier: seq<R>) {
    exists j: nat :: j < |earlier| && reader.claim(earlier[j]) == Some(id)
  }

  /** What becomes of a record after the earlier ones. */
  function Fate<R, Z>(reader: Reader<R, Z>, earlier: seq<R>, r: R): Option<Z> {
    match reader.claim(r)
    case None => None
    case Some(id) => if IsClaimed(reader, id, earlier) then None else reader.build(r)
  }

  /** The records taken over, in feed order. */
  function Accepted<R, Z>(reader: Reader<R, Z>, rs: seq<R>): seq<Z> {
    if rs == [] then []
    else
      var last := |rs| - 1;
      Accepted(reader, rs[..last]) +
      match Fate(reader, rs[..last], rs[last]) case None => [] case Some(z) => [z]
  }

  /** The positions of the records taken over. */
  function TakenAt<R, Z>(reader: Reader<R, Z>, rs: seq<R>): seq<nat> {
    if rs == [] then []
    else
      var last := |rs| - 1;
      TakenAt(reader, rs[..last]) + if Fate(reader, rs[..last], rs[last]).Some? then [last] else []
  }

  /** The positions of the records put in quarantine. */
  function RefusedAt<R, Z>(reader: Reader<R, Z>, rs: seq<R>): seq<nat> {
    if rs == [] then []
    else
      var last := |rs| - 1;
      RefusedAt(reader, rs[..last]) + if Fate(reader, rs[..last], rs[last]).Some? then [] else [last]
  }

  predicate IsIncreasing(xs: seq<nat>, bound: nat) {
    && (forall i: nat, j: nat :: i < j < |xs| ==> xs[i] < xs[j])
    && (forall i: nat :: i < |xs| ==> xs[i] < bound)
  }

  /** Every record is accepted or rejected, once, and the accepted ones keep the order of the feed. */
  lemma {:induction false} EachRecordOnce<R, Z>(reader: Reader<R, Z>, rs: seq<R>)
    ensures |Accepted(reader, rs)| + |RefusedAt(reader, rs)| == |rs|
    ensures IsIncreasing(TakenAt(reader, rs), |rs|) && IsIncreasing(RefusedAt(reader, rs), |rs|)
    ensures forall i: nat :: i < |rs| ==> (i in TakenAt(reader, rs) <==> i !in RefusedAt(reader, rs))
    ensures |TakenAt(reader, rs)| == |Accepted(reader, rs)|
  {
    if rs != [] {
      var last := |rs| - 1;
      EachRecordOnce(reader, rs[..last]);
      var taken, refused := TakenAt(reader, rs[..last]), RefusedAt(reader, rs[..last]);
      assert last !in taken && last !in refused;
    }
  }

  /** Position by position, what is accepted is what became of the record there. */
  lemma {:induction false} AcceptedFromTaken<R, Z>(reader: Reader<R, Z>, rs: seq<R>, k: nat)
    requires k < |Accepted(reader, rs)|
    ensures k < |TakenAt(reader, rs)| && TakenAt(reader, rs)[k] < |rs|
    ensures var i := TakenAt(reader, rs)[k]; Fate(reader, rs[..i], rs[i]) == Some(Accepted(reader, rs)[k])
  {
    EachRecordOnce(reader, rs);
    var last := |rs| - 1;
    var before := rs[..last];
    EachRecordOnce(reader, before);
    if k < |Accepted(reader, before)| {
      AcceptedFromTaken(reader, before, k);
      var i := TakenAt(reader, before)[k];
      assert TakenAt(reader, rs)[k] == i;
      assert before[..i] == rs[..i];
    }
  }

  /** A record that was taken over is among the accepted. */
  lemma {:induction false} TakenIsAccepted<R, Z>(reader: Reader<R, Z>, rs: seq<R>, i: nat)
    requires i < |rs| && Fate(reader, rs[..i], rs[i]).Some?
    ensures Fate(reader, rs[..i], rs[i]).value in Accepted(reader, rs)
  {
    var last := |rs| - 1;
    if i < last {
      assert rs[..last][..i] == rs[..i];
      TakenIsAccepted(reader, rs[..last], i);
    }
  }

  ghost predicate HasId<R, Z>(reader: Reader<R, Z>, rs: seq<R>, id: string) {
    exists z :: z in Accepted(reader, rs) && reader.idOf(z) == id
  }

  /** Record `i` is the first to claim the id. */
  predicate ClaimsFirst<R, Z>(reader: Reader<R, Z>, rs: seq<R>, i: nat, id: string) {
    i < |rs| && reader.claim(rs[i]) == Some(id) && !IsClaimed(reader, id, rs[..i])
  }

  lemma {:induction false} SomeoneClaimsFirst<R, Z>(reader: Reader<R, Z>, rs: seq<R>, id: string) returns (i: nat)
    requires IsClaimed(reader, id, rs)
    ensures ClaimsFirst(reader, rs, i, id)
  {
    var last := |rs| - 1;
    if IsClaimed(reader, id, rs[..last]) {
      i := SomeoneClaimsFirst(reader, rs[..last], id);
      assert rs[..last][..i] == rs[..i];
    } else {
      i := last;
      var j: nat :| j < |rs| && reader.claim(rs[j]) == Some(id);
      assert j < last ==> reader.claim(rs[..last][j]) == Some(id);
    }
  }

  lemma FirstClaimIsUnique<R, Z>(reader: Reader<R, Z>, rs: seq<R>, i: nat, j: nat, id: string)
    requires ClaimsFirst(reader, rs, i, id) && ClaimsFirst(reader, rs, j, id)
    ensures i == j
  {
  }

  /** An id is accepted exactly when the first record that claims it can be built. */
  lemma IdIsAcceptedIff<R(!new), Z(!new)>(reader: Reader<R, Z>, rs: seq<R>, id: string)
    requires IsCoherent(reader)
    ensures HasId(reader, rs, id)
            <==> exists i: nat :: ClaimsFirst(reader, rs, i, id) && reader.build(rs[i]).Some?
  {
    if HasId(reader, rs, id) {
      var z :| z in Accepted(reader, rs) && reader.idOf(z) == id;
      var k: nat :| k < |Accepted(reader, rs)| && Accepted(reader, rs)[k] == z;
      AcceptedFromTaken(reader, rs, k);
      var i := TakenAt(reader, rs)[k];
      assert reader.claim(rs[i]).Some? && reader.build(rs[i]) == Some(z);
      assert ClaimsFirst(reader, rs, i, id);
    }
    if i: nat :| ClaimsFirst(reader, rs, i, id) && reader.build(rs[i]).Some? {
      TakenIsAccepted(reader, rs, i);
      assert reader.idOf(reader.build(rs[i]).value) == id;
    }
  }

  /** No two accepted records carry the same id. */
  lemma AcceptedIdsAreDistinct<R(!new), Z(!new)>(reader: Reader<R, Z>, rs: seq<R>, k: nat, l: nat)
    requires IsCoherent(reader)
    requires k < l < |Accepted(reader, rs)|
    ensures reader.idOf(Accepted(reader, rs)[k]) != reader.idOf(Accepted(reader, rs)[l])
  {
    EachRecordOnce(reader, rs);
    AcceptedFromTaken(reader, rs, k);
    AcceptedFromTaken(reader, rs, l);
    var i, j := TakenAt(reader, rs)[k], TakenAt(reader, rs)[l];
    assert reader.claim(rs[i]).Some? && reader.build(rs[i]).Some?;
    assert reader.claim(rs[j]).Some? && reader.build(rs[j]).Some?;
    assert rs[..j][i] == rs[i];
  }

  // --------------------------------------------- one round of a connector's loop

  ghost predicate SeenSoFar<R, Z>(reader: Reader<R, Z>, earlier: seq<R>, seen: set<string>) {
    forall id :: id in seen <==> IsClaimed(reader, id, earlier)
  }

  lemma IntakeStep<R, Z>(reader: Reader<R, Z>, rs: seq<R>, i: nat, seen: set<string>)
    requires i < |rs| && SeenSoFar(reader, rs[..i], seen)
    ensures var claim := reader.claim(rs[i]);
            SeenSoFar(reader, rs[..i + 1], if claim.Some? then seen + {claim.value} else seen)
    ensures var claim := reader.claim(rs[i]);
            if claim.Some? && claim.value !in seen && reader.build(rs[i]).Some? then
              && Accepted(reader, rs[..i + 1]) == Accepted(reader, rs[..i]) + [reader.build(rs[i]).value]
              && RefusedAt(reader, rs[..i + 1]) == RefusedAt(reader, rs[..i])
            else
              && Accepted(reader, rs[..i + 1]) == Accepted(reader, rs[..i])
              && RefusedAt(reader, rs[..i + 1]) == RefusedAt(reader, rs[..i]) + [i]
  {
    var earlier, upTo := rs[..i], rs[..i + 1];
    assert upTo[..i] == earlier && upTo == earlier + [rs[i]];
    var claim := reader.claim(rs[i]);
    forall id
      ensures IsClaimed(reader, id, upTo) <==> IsClaimed(reader, id, earlier) || claim == Some(id)
    {
      if j: nat :| j < |upTo| && reader.claim(upTo[j]) == Some(id) {
        assert j < |earlier| ==> upTo[j] == earlier[j];
      }
      if j: nat :| j < |earlier| && reader.claim(earlier[j]) == Some(id) {
        assert upTo[j] == earlier[j];
      }
      assert upTo[|earlier|] == rs[i];
    }
  }
}
