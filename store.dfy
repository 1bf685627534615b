/** The SQLite tables the pipeline reads and writes, seen through one connection.
    A table is the sequence of its rows in insertion order; an `INSERT` either
    appends one row or raises (which one is an input); `commit()` makes the
    connection's current rows the durable ones. */
module Store {
  import opened Common

  datatype FeatureRecord = FeatureRecord(featureId: int, productId: int, name: string)

  datatype SlotRecord = SlotRecord(slotId: int, productId: int, name: string)

  datatype IntentRecord = IntentRecord(
    intentId: int, productId: int, featureId: int, slotId: Option<int>,
    intentCh: string, intentEn: string, description: string,
    createdAt: int, isActive: bool)

  /** A row of the `corpus` table; `text` is the `intent_en` column, which holds the phrase. */
  datatype CorpusRecord = CorpusRecord(
    intentId: int, slotId: Option<int>, text: string, score: real, isActive: bool)

  /** What pressing an "add" button did: inserted and committed, refused by the
      form's guard, raised by the insert, or crashed on a lookup before it. */
  datatype AddOutcome = Added | Refused | Raised | Crashed(error: Error)

  /** The connection: current rows of each table and the rows as of the last commit. */
  class Database {
    const features: seq<FeatureRecord>
    const slots: seq<SlotRecord>
    var intents: seq<IntentRecord>
    var corpus: seq<CorpusRecord>
    var nextIntentId: int
    var savedIntents: seq<IntentRecord>
    var savedCorpus: seq<CorpusRecord>

    constructor (features: seq<FeatureRecord>, slots: seq<SlotRecord>,
                 intents: seq<IntentRecord>, corpus: seq<CorpusRecord>, nextIntentId: int)
      ensures this.features == features && this.slots == slots
      ensures this.intents == intents && this.corpus == corpus && this.nextIntentId == nextIntentId
      ensures savedIntents == intents && savedCorpus == corpus
    {
      this.features, this.slots := features, slots;
      this.intents, this.corpus, this.nextIntentId := intents, corpus, nextIntentId;
      savedIntents, savedCorpus := intents, corpus;
    }

    /** `INSERT INTO corpus ...`: appends `rec`, or raises when `fails`. */
    method InsertCorpus(rec: CorpusRecord, fails: bool) returns (ok: bool)
      modifies this`corpus
      ensures ok == !fails
      ensures corpus == if ok then old(corpus) + [rec] else old(corpus)
    {
      ok := !fails;
      if ok {
        corpus := corpus + [rec];
      }
    }

    /** `INSERT INTO intents ...`: appends `rec` under the next row id, or raises when `fails`. */
    method InsertIntent(rec: IntentRecord, fails: bool) returns (ok: bool)
      modifies this`intents, this`nextIntentId
      ensures ok == !fails
      ensures intents == if ok then old(intents) + [rec.(intentId := old(nextIntentId))] else old(intents)
      ensures nextIntentId == if ok then old(nextIntentId) + 1 else old(nextIntentId)
    {
      ok := !fails;
      if ok {
        intents := intents + [rec.(intentId := nextIntentId)];
        nextIntentId := nextIntentId + 1;
      }
    }

    /** `conn.commit()`. */
    method Commit()
      modifies this`savedIntents, this`savedCorpus
      ensures savedIntents == intents && savedCorpus == corpus
    {
      savedIntents, savedCorpus := intents, corpus;
    }
  }

  /** `SELECT feature_id FROM features WHERE name = ? AND product_id = ?`, first row. */
  function FindFeature(features: seq<FeatureRecord>, productId: int, name: string): (r: Option<int>)
    ensures r.None? <==> forall i :: 0 <= i < |features| ==>
      !(features[i].productId == productId && features[i].name == name)
    ensures r.Some? ==> (exists i :: 0 <= i < |features| && features[i].productId == productId
                           && features[i].name == name && features[i].featureId == r.value)
  {
    if |features| == 0 then None
    else if features[0].productId == productId && features[0].name == name then Some(features[0].featureId)
    else
      var r := FindFeature(features[1..], productId, name);
      assert forall i :: 1 <= i < |features| ==> features[i] == features[1..][i - 1];
      r
  }

  /** `SELECT slot_id FROM slots WHERE name = ? AND product_id = ?`, first row. */
  function FindSlot(slots: seq<SlotRecord>, productId: int, name: string): (r: Option<int>)
    ensures r.None? <==> forall i :: 0 <= i < |slots| ==>
      !(slots[i].productId == productId && slots[i].name == name)
    ensures r.Some? ==> (exists i :: 0 <= i < |slots| && slots[i].productId == productId
                           && slots[i].name == name && slots[i].slotId == r.value)
  {
    if |slots| == 0 then None
    else if slots[0].productId == productId && slots[0].name == name then Some(slots[0].slotId)
    else
      var r := FindSlot(slots[1..], productId, name);
      assert forall i :: 1 <= i < |slots| ==> slots[i] == slots[1..][i - 1];
      r
  }

  /** Position of the first index below `n` in `failing`: where a loop of inserts
      that does not catch errors stops. */
  function FirstFailure(failing: set<nat>, n: nat): (r: Option<nat>)
    ensures r.None? <==> forall i :: 0 <= i < n ==> i !in failing
    ensures r.Some? ==> r.value < n && r.value in failing
    ensures r.Some? ==> forall i :: 0 <= i < r.value ==> i !in failing
  {
    if n == 0 then None
    else match FirstFailure(failing, n - 1)
      case Some(k) => Some(k)
      case None => if n - 1 in failing then Some(n - 1) else None
  }

  /** Is row `i` the last kept row carrying its name? */
  predicate LastWithName<T>(rows: seq<T>, keep: T -> bool, name: T -> string, i: nat)
    requires i < |rows|
  {
    forall j :: i < j < |rows| && keep(rows[j]) ==> name(rows[j]) != name(rows[i])
  }

  /** The dict comprehension `{name: id for (id, name) in fetched}` over the rows
      `keep` selects, built row by row so that a later row overwrites an earlier
      one with the same name. */
  function NameIndex<T>(rows: seq<T>, keep: T -> bool, name: T -> string, id: T -> int): map<string, int>
  {
    if |rows| == 0 then map[]
    else
      var m := NameIndex(rows[..|rows| - 1], keep, name, id);
      var last := rows[|rows| - 1];
      if keep(last) then m[name(last) := id(last)] else m
  }

  /** Every kept name is a key of the index, and nothing else is. */
  lemma {:induction false} NameIndexKeys<T>(rows: seq<T>, keep: T -> bool, name: T -> string, id: T -> int)
    ensures forall k :: k in NameIndex(rows, keep, name, id) <==>
      exists i :: 0 <= i < |rows| && keep(rows[i]) && name(rows[i]) == k
  {
    if |rows| > 0 {
      var init := rows[..|rows| - 1];
      NameIndexKeys(init, keep, name, id);
      assert forall i :: 0 <= i < |init| ==> init[i] == rows[i];
      forall k | exists i :: 0 <= i < |rows| && keep(rows[i]) && name(rows[i]) == k
        ensures k in NameIndex(rows, keep, name, id)
      {
        var i :| 0 <= i < |rows| && keep(rows[i]) && name(rows[i]) == k;
        if i < |init| {
          assert keep(init[i]) && name(init[i]) == k;
        }
      }
    }
  }

  /** A name kept several times maps to the id of its last kept row. */
  lemma {:induction false} NameIndexLast<T>(rows: seq<T>, keep: T -> bool, name: T -> string, id: T -> int)
    ensures forall i :: 0 <= i < |rows| && keep(rows[i]) && LastWithName(rows, keep, name, i) ==>
      name(rows[i]) in NameIndex(rows, keep, name, id) && NameIndex(rows, keep, name, id)[name(rows[i])] == id(rows[i])
  {
    if |rows| > 0 {
      var init := rows[..|rows| - 1];
      NameIndexLast(init, keep, name, id);
      forall i | 0 <= i < |rows| - 1 && keep(rows[i]) && LastWithName(rows, keep, name, i)
        ensures LastWithName(init, keep, name, i) && init[i] == rows[i]
      {
      }
    }
  }

  /** The ids of a name index as nullable values, as the option dicts hold them. */
  function Lift(m: map<string, int>): (r: map<string, Option<int>>)
    ensures r.Keys == m.Keys
    ensures forall k :: k in m ==> r[k] == Some(m[k])
  {
    map k | k in m :: Some(m[k])
  }
}
