/**
 * The `config.databases` collection as the command sees it: an ordered
 * sequence of documents, a query filter on `name` (and optionally `primary`),
 * and the single update the command issues, `{$set: {sharded: true}}` with
 * `multi: false` and `upsert: false`.
 */
module ConfigStore {
  import opened ClusterTypes

  /** The query filter: `name` always, `primary` only when present. */
  datatype Filter = Filter(name: DbName, primary: Option<ShardId>)

  /** Result of an update: the collection afterwards and the matched count `n`. */
  datatype UpdateResult = UpdateResult(docs: seq<DatabaseRecord>, n: nat)

  predicate Matches(d: DatabaseRecord, f: Filter) {
    d.name == f.name && (f.primary.Some? ==> d.primary == f.primary.value)
  }

  /** At most one record per database name (the `_id` index). */
  predicate UniqueNames(docs: seq<DatabaseRecord>) {
    forall i, j :: 0 <= i < j < |docs| ==> docs[i].name != docs[j].name
  }

  predicate NoMatch(docs: seq<DatabaseRecord>, f: Filter) {
    forall i :: 0 <= i < |docs| ==> !Matches(docs[i], f)
  }

  predicate IsFirstMatch(docs: seq<DatabaseRecord>, f: Filter, i: int) {
    && 0 <= i < |docs|
    && Matches(docs[i], f)
    && forall j :: 0 <= j < i ==> !Matches(docs[j], f)
  }

  predicate HasShardedRecord(docs: seq<DatabaseRecord>, db: DbName) {
    exists i :: 0 <= i < |docs| && docs[i].name == db && docs[i].sharded
  }

  /** The only change `{$set: {sharded: true}}` makes to a document. */
  function MarkSharded(d: DatabaseRecord): DatabaseRecord {
    d.(sharded := true)
  }

  /** Number of documents a filter selects; what a `multi: true` update would match. */
  function CountMatches(docs: seq<DatabaseRecord>, f: Filter): nat {
    if |docs| == 0 then 0
    else (if Matches(docs[0], f) then 1 else 0) + CountMatches(docs[1..], f)
  }

  /** Position of the first document the filter selects, in collection order. */
  function FindFirst(docs: seq<DatabaseRecord>, f: Filter): (r: Option<nat>)
    ensures r.None? <==> NoMatch(docs, f)
    ensures r.Some? ==> IsFirstMatch(docs, f, r.value)
  {
    if |docs| == 0 then None
    else if Matches(docs[0], f) then Some(0)
    else
      match FindFirst(docs[1..], f)
      case None => None
      case Some(i) => Some(i + 1)
  }

  /**
   * `update({filter}, {$set: {sharded: true}}, {multi: false, upsert: false})`:
   * the first selected document gets `sharded = true`, nothing is inserted,
   * and `n` is the number of documents matched (not the number changed).
   */
  function UpdateOne(docs: seq<DatabaseRecord>, f: Filter): (r: UpdateResult)
    ensures r.n <= 1
    ensures r.n == 0 <==> NoMatch(docs, f)
    ensures r.n == 0 ==> r.docs == docs
    ensures r.n == 1 ==> exists i :: IsFirstMatch(docs, f, i) && r.docs == docs[i := MarkSharded(docs[i])]
    ensures |r.docs| == |docs|
    ensures forall j :: 0 <= j < |docs| ==>
              && r.docs[j].name == docs[j].name
              && r.docs[j].primary == docs[j].primary
              && (docs[j].sharded ==> r.docs[j].sharded)
    ensures UniqueNames(docs) ==> UniqueNames(r.docs)
  {
    match FindFirst(docs, f)
    case None => UpdateResult(docs, 0)
    case Some(i) => UpdateResult(docs[i := MarkSharded(docs[i])], 1)
  }

  lemma {:induction false} NoMatchCountsZero(docs: seq<DatabaseRecord>, f: Filter)
    requires NoMatch(docs, f)
    ensures CountMatches(docs, f) == 0
    decreases |docs|
  {
    if |docs| > 0 {
      assert !Matches(docs[0], f);
      assert NoMatch(docs[1..], f) by {
        forall i | 0 <= i < |docs[1..]| ensures !Matches(docs[1..][i], f) {
          assert docs[1..][i] == docs[i + 1];
        }
      }
      NoMatchCountsZero(docs[1..], f);
    }
  }

  /**
   * Because the filter always pins `name` and names are unique, the
   * `multi: false` update loses nothing: its matched count is the number of
   * documents the filter selects.
   */
  lemma {:induction false} SingleUpdateMatchesAllSelected(docs: seq<DatabaseRecord>, f: Filter)
    requires UniqueNames(docs)
    ensures UpdateOne(docs, f).n == CountMatches(docs, f)
    decreases |docs|
  {
    if |docs| > 0 {
      var tail := docs[1..];
      assert UniqueNames(tail) by {
        forall i, j | 0 <= i < j < |tail| ensures tail[i].name != tail[j].name {
          assert tail[i] == docs[i + 1] && tail[j] == docs[j + 1];
        }
      }
      if Matches(docs[0], f) {
        assert NoMatch(tail, f) by {
          forall i | 0 <= i < |tail| ensures !Matches(tail[i], f) {
            assert tail[i] == docs[i + 1];
            assert docs[0].name != docs[i + 1].name;
          }
        }
        NoMatchCountsZero(tail, f);
        assert !NoMatch(docs, f);
      } else {
        SingleUpdateMatchesAllSelected(tail, f);
        assert NoMatch(docs, f) <==> NoMatch(tail, f) by {
          if NoMatch(tail, f) {
            forall i | 0 <= i < |docs| ensures !Matches(docs[i], f) {
              if i > 0 { assert docs[i] == tail[i - 1]; }
            }
          }
          if NoMatch(docs, f) {
            forall i | 0 <= i < |tail| ensures !Matches(tail[i], f) {
              assert tail[i] == docs[i + 1];
            }
          }
        }
      }
    }
  }

  /**
   * Re-issuing the update is harmless: it matches the same document again,
   * reports the same count, and changes nothing further.
   */
  lemma UpdateOneIdempotent(docs: seq<DatabaseRecord>, f: Filter)
    ensures UpdateOne(UpdateOne(docs, f).docs, f) == UpdateOne(docs, f)
  {
  }
}
