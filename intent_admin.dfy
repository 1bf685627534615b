/** The intent page (`src/intent.py`): the feature and slot select boxes, manual
    addition of an intent, the list filtered by feature and ordered by creation
    time, deletion and status update by Chinese name, and the CSV import that
    resolves feature and slot names of the current product. */
module IntentAdmin {
  import opened Common
  import opened Store

  /** The columns an intent CSV must contain (and the template's header). */
  const CsvHeaders: seq<string> := ["intent_ch", "intent_en", "description", "feature_name", "slot_name"]

  /** The optional column whose absence makes every imported intent active. */
  const ActiveColumn := "is_active"

  /** The first entry of the feature select box, standing for every feature. */
  const AllFeatures := "所有功能"

  /** The entry of the slot select box standing for no slot. */
  const NoSlot := "无"

  /** One row of an uploaded intent CSV; `slotName` is `None` for an empty cell. */
  datatype IntentCsvRow = IntentCsvRow(
    intentCh: string, intentEn: string, description: string,
    featureName: string, slotName: Option<string>, isActive: bool)

  /** An uploaded intent CSV: its header and its rows. */
  datatype IntentCsv = IntentCsv(columns: seq<string>, rows: seq<IntentCsvRow>)

  /** What the confirmed import did: refused the header, inserted every row it
      could resolve and committed, or stopped at the row whose insert raised. */
  datatype ImportOutcome = Rejected | Imported | RaisedAt(row: nat)

  // ---------------------------------------------------------------------------
  // Select boxes

  /** `{"所有功能": None}` updated with `{name: feature_id}` for the product's features. */
  function FeatureOptions(features: seq<FeatureRecord>, productId: int): map<string, Option<int>>
  {
    map[AllFeatures := None] + Lift(NameIndex(features, (f: FeatureRecord) => f.productId == productId,
                                              (f: FeatureRecord) => f.name, (f: FeatureRecord) => f.featureId))
  }

  /** The choices of the add form's feature box: every key but the first, `"所有功能"`. */
  function AddFeatureChoices(features: seq<FeatureRecord>, productId: int): set<string>
  {
    FeatureOptions(features, productId).Keys - {AllFeatures}
  }

  /** The filter box offers "all features" (unless a feature bears that name) and,
      for every other name, the last feature of the product with that name; the
      add form offers exactly the product's feature names other than `"所有功能"`,
      each mapping to a feature id. */
  lemma FeatureOptionsChoices(features: seq<FeatureRecord>, productId: int)
    ensures AllFeatures in FeatureOptions(features, productId)
    ensures FeatureOptions(features, productId)[AllFeatures] == None <==>
      forall i :: 0 <= i < |features| ==> !(features[i].productId == productId && features[i].name == AllFeatures)
    ensures forall i :: (0 <= i < |features| && features[i].productId == productId
      && LastWithName(features, (f: FeatureRecord) => f.productId == productId, (f: FeatureRecord) => f.name, i)) ==>
      features[i].name in FeatureOptions(features, productId) &&
      FeatureOptions(features, productId)[features[i].name] == Some(features[i].featureId)
    ensures forall k :: k in AddFeatureChoices(features, productId) <==>
      k != AllFeatures && exists i :: 0 <= i < |features| && features[i].productId == productId && features[i].name == k
    ensures forall k :: k in AddFeatureChoices(features, productId) ==>
      k in FeatureOptions(features, productId) && FeatureOptions(features, productId)[k].Some?
  {
    var keep := (f: FeatureRecord) => f.productId == productId;
    var idx := NameIndex(features, keep, (f: FeatureRecord) => f.name, (f: FeatureRecord) => f.featureId);
    NameIndexKeys(features, keep, (f: FeatureRecord) => f.name, (f: FeatureRecord) => f.featureId);
    NameIndexLast(features, keep, (f: FeatureRecord) => f.name, (f: FeatureRecord) => f.featureId);
    if FeatureOptions(features, productId)[AllFeatures] == None {
      assert AllFeatures !in idx;
    }
  }

  /** `{name: slot_id}` for the product's slots, then `"无"` set to `None`. */
  function SlotOptions(slots: seq<SlotRecord>, productId: int): map<string, Option<int>>
  {
    Lift(NameIndex(slots, (s: SlotRecord) => s.productId == productId,
                   (s: SlotRecord) => s.name, (s: SlotRecord) => s.slotId))[NoSlot := None]
  }

  /** `"无"` always means no slot, even over a slot of that name; every other
      slot name of the product selects its last slot. */
  lemma SlotOptionsChoices(slots: seq<SlotRecord>, productId: int)
    ensures NoSlot in SlotOptions(slots, productId) && SlotOptions(slots, productId)[NoSlot] == None
    ensures forall k :: k in SlotOptions(slots, productId) <==>
      k == NoSlot || exists i :: 0 <= i < |slots| && slots[i].productId == productId && slots[i].name == k
    ensures forall i :: (0 <= i < |slots| && slots[i].productId == productId && slots[i].name != NoSlot
      && LastWithName(slots, (s: SlotRecord) => s.productId == productId, (s: SlotRecord) => s.name, i)) ==>
      slots[i].name in SlotOptions(slots, productId) &&
      SlotOptions(slots, productId)[slots[i].name] == Some(slots[i].slotId)
  {
    var keep := (s: SlotRecord) => s.productId == productId;
    NameIndexKeys(slots, keep, (s: SlotRecord) => s.name, (s: SlotRecord) => s.slotId);
    NameIndexLast(slots, keep, (s: SlotRecord) => s.name, (s: SlotRecord) => s.slotId);
  }

  // ---------------------------------------------------------------------------
  // Manual addition

  /** The "添加意图" button. The form's guard needs both names non-empty and a
      feature other than `"所有功能"`. With no feature to choose, the feature box
      yields `None`, which passes the guard and then is no key of the options:
      the lookup raises `KeyError` before any insert. Otherwise one intent is
      inserted with the chosen feature's and slot's ids, the product, both names,
      the description, `now` and the checkbox, and committed. */
  method AddIntent(db: Database, productId: int, intentCh: string, intentEn: string, description: string,
                   featureChoice: Option<string>, slotChoice: string, isActive: bool, now: int, fails: bool)
    returns (outcome: AddOutcome)
    requires featureChoice.None? ==> AddFeatureChoices(db.features, productId) == {}
    requires featureChoice.Some? ==> featureChoice.value in AddFeatureChoices(db.features, productId)
    requires slotChoice in SlotOptions(db.slots, productId)
    modifies db`intents, db`nextIntentId, db`savedIntents, db`savedCorpus
    ensures outcome == Refused <==> !(intentCh != "" && intentEn != "" && featureChoice != Some(AllFeatures))
    ensures outcome.Crashed? <==> outcome != Refused && featureChoice.None?
    ensures outcome.Crashed? ==> outcome.error == KeyError("None")
    ensures outcome == Raised <==> outcome != Refused && featureChoice.Some? && fails
    ensures outcome != Added ==> unchanged(db)
    ensures outcome == Added ==>
      && db.intents == old(db.intents) + [IntentRecord(
           old(db.nextIntentId), productId, FeatureOptions(db.features, productId)[featureChoice.value].value,
           SlotOptions(db.slots, productId)[slotChoice], intentCh, intentEn, description, now, isActive)]
      && db.nextIntentId == old(db.nextIntentId) + 1
      && db.savedIntents == db.intents && db.savedCorpus == db.corpus
  {
    if intentCh != "" && intentEn != "" && featureChoice != Some(AllFeatures) {
      if featureChoice.None? {
        return Crashed(KeyError("None"));
      }
      FeatureOptionsChoices(db.features, productId);
      var featureId := FeatureOptions(db.features, productId)[featureChoice.value].value;
      var slotId := SlotOptions(db.slots, productId)[slotChoice];
      var ok := db.InsertIntent(IntentRecord(0, productId, featureId, slotId, intentCh, intentEn, description, now, isActive),
                                fails);
      if !ok {
        return Raised;
      }
      db.Commit();
      return Added;
    }
    return Refused;
  }

  // ---------------------------------------------------------------------------
  // Listing

  /** The `WHERE` of the list query: the product's intents, of one feature when one is chosen. */
  predicate Listed(x: IntentRecord, productId: int, featureId: Option<int>)
  {
    x.productId == productId && (featureId.None? || x.featureId == featureId.value)
  }

  /** The product's intents (of the chosen feature), in table order. */
  function Selected(intents: seq<IntentRecord>, productId: int, featureId: Option<int>): (r: seq<IntentRecord>)
    ensures |r| <= |intents|
    ensures forall x :: x in r <==> x in intents && Listed(x, productId, featureId)
    ensures forall x :: multiset(r)[x] == if Listed(x, productId, featureId) then multiset(intents)[x] else 0
  {
    if |intents| == 0 then []
    else
      assert intents == [intents[0]] + intents[1..];
      (if Listed(intents[0], productId, featureId) then [intents[0]] else [])
      + Selected(intents[1..], productId, featureId)
  }

  /** Newest first: `ORDER BY created_at DESC`. */
  predicate NewestFirst(s: seq<IntentRecord>)
  {
    forall i, j :: 0 <= i < j < |s| ==> s[i].createdAt >= s[j].createdAt
  }

  /** Places `x` into a newest-first sequence before the first row no newer than it. */
  function InsertNewest(x: IntentRecord, s: seq<IntentRecord>): (r: seq<IntentRecord>)
    requires NewestFirst(s)
    ensures NewestFirst(r)
    ensures multiset(r) == multiset(s) + multiset{x}
    ensures |r| > 0 && (r[0] == x || (|s| > 0 && r[0] == s[0]))
  {
    if |s| == 0 || x.createdAt >= s[0].createdAt then [x] + s
    else
      var rest := InsertNewest(x, s[1..]);
      assert s == [s[0]] + s[1..];
      [s[0]] + rest
  }

  /** Orders rows newest first; rows with equal creation times may come in any order. */
  function SortNewest(s: seq<IntentRecord>): (r: seq<IntentRecord>)
    ensures NewestFirst(r)
    ensures multiset(r) == multiset(s)
  {
    if |s| == 0 then []
    else
      assert s == [s[0]] + s[1..];
      InsertNewest(s[0], SortNewest(s[1..]))
  }

  /** The intent list: with "all features" (`None`) every intent of the product,
      otherwise the product's intents with the chosen feature id; each exactly
      as often as in the table, newest first. */
  function ListIntents(intents: seq<IntentRecord>, productId: int, featureId: Option<int>): (r: seq<IntentRecord>)
    ensures NewestFirst(r)
    ensures multiset(r) == multiset(Selected(intents, productId, featureId))
    ensures forall x :: x in r <==> (x in intents && x.productId == productId
                                     && (featureId.None? || x.featureId == featureId.value))
  {
    var selected := Selected(intents, productId, featureId);
    var r := SortNewest(selected);
    assert forall x :: x in r <==> x in multiset(r);
    assert forall x :: x in selected <==> x in multiset(selected);
    r
  }

  // ---------------------------------------------------------------------------
  // Delete and status update by Chinese name

  /** `DELETE FROM intents WHERE product_id = ? AND intent_ch = ?` on a table. */
  function WithoutNamed(intents: seq<IntentRecord>, productId: int, name: string): (r: seq<IntentRecord>)
    ensures |r| <= |intents|
    ensures forall x :: x in r <==> x in intents && !(x.productId == productId && x.intentCh == name)
    ensures forall x :: multiset(r)[x] == if x.productId == productId && x.intentCh == name then 0 else multiset(intents)[x]
  {
    if |intents| == 0 then []
    else
      assert intents == [intents[0]] + intents[1..];
      var head := intents[0];
      (if head.productId == productId && head.intentCh == name then [] else [head])
      + WithoutNamed(intents[1..], productId, name)
  }

  /** Deleting by a name keeps the other rows in their order, so a second
      deletion of the same name changes nothing. */
  lemma {:induction false} WithoutNamedIdempotent(intents: seq<IntentRecord>, productId: int, name: string)
    ensures WithoutNamed(WithoutNamed(intents, productId, name), productId, name) == WithoutNamed(intents, productId, name)
  {
    if |intents| > 0 {
      WithoutNamedIdempotent(intents[1..], productId, name);
      var rest := WithoutNamed(intents[1..], productId, name);
      var head := intents[0];
      if head.productId == productId && head.intentCh == name {
        assert WithoutNamed(intents, productId, name) == [] + rest == rest;
      } else {
        assert WithoutNamed(intents, productId, name) == [head] + rest;
        assert ([head] + rest)[0] == head && ([head] + rest)[1..] == rest;
      }
    }
  }

  /** `UPDATE intents SET is_active = ? WHERE product_id = ? AND intent_ch = ?` on a table. */
  function WithActive(intents: seq<IntentRecord>, productId: int, name: string, status: bool): (r: seq<IntentRecord>)
    ensures |r| == |intents|
    ensures forall i :: 0 <= i < |r| ==>
      r[i] == if intents[i].productId == productId && intents[i].intentCh == name
              then intents[i].(isActive := status) else intents[i]
  {
    if |intents| == 0 then []
    else
      var head := intents[0];
      [if head.productId == productId && head.intentCh == name then head.(isActive := status) else head]
      + WithActive(intents[1..], productId, name, status)
  }

  /** The status update leaves the rows, their order and every other column as they
      were: only the activity of the named intents of the product changes. */
  lemma WithActiveOnlyStatus(intents: seq<IntentRecord>, productId: int, name: string, status: bool)
    ensures forall i :: 0 <= i < |intents| ==>
      WithActive(intents, productId, name, status)[i].(isActive := intents[i].isActive) == intents[i]
    ensures forall x :: (x in WithActive(intents, productId, name, status) && x.productId == productId
                         && x.intentCh == name) ==> x.isActive == status
    ensures WithoutNamed(WithActive(intents, productId, name, status), productId, name) == WithoutNamed(intents, productId, name)
  {
    WithoutNamedUnderStatus(intents, productId, name, status);
  }

  lemma {:induction false} WithoutNamedUnderStatus(intents: seq<IntentRecord>, productId: int, name: string, status: bool)
    ensures WithoutNamed(WithActive(intents, productId, name, status), productId, name) == WithoutNamed(intents, productId, name)
  {
    if |intents| > 0 {
      WithoutNamedUnderStatus(intents[1..], productId, name, status);
      assert WithActive(intents, productId, name, status)[1..] == WithActive(intents[1..], productId, name, status);
    }
  }

  /** The delete button: removes every intent of the product with that Chinese
      name, whatever its feature, and commits. */
  method DeleteIntent(db: Database, productId: int, name: string)
    modifies db`intents, db`savedIntents, db`savedCorpus
    ensures db.intents == WithoutNamed(old(db.intents), productId, name)
    ensures db.savedIntents == db.intents && db.savedCorpus == db.corpus
  {
    db.intents := WithoutNamed(db.intents, productId, name);
    db.Commit();
  }

  /** The status button: sets the activity of every intent of the product with
      that Chinese name, and commits. */
  method UpdateIntentStatus(db: Database, productId: int, name: string, status: bool)
    modifies db`intents, db`savedIntents, db`savedCorpus
    ensures db.intents == WithActive(old(db.intents), productId, name, status)
    ensures db.savedIntents == db.intents && db.savedCorpus == db.corpus
  {
    db.intents := WithActive(db.intents, productId, name, status);
    db.Commit();
  }

  // ---------------------------------------------------------------------------
  // CSV import

  /** `all(header in df.columns for header in CSV_HEADERS)`, over any header list. */
  function AllIn(headers: seq<string>, columns: seq<string>): (ok: bool)
    ensures ok <==> forall i :: 0 <= i < |headers| ==> headers[i] in columns
  {
    |headers| == 0 || (headers[0] in columns && AllIn(headers[1..], columns))
  }

  /** A CSV is accepted exactly when it has every required column; extra columns are allowed. */
  function HeadersOk(columns: seq<string>): (ok: bool)
    ensures ok <==> forall i :: 0 <= i < |CsvHeaders| ==> CsvHeaders[i] in columns
  {
    AllIn(CsvHeaders, columns)
  }

  /** The slot id of a row: the first slot of the product with that name, or
      `None` when the cell is empty or no slot of the product has that name. */
  function ResolveSlot(slots: seq<SlotRecord>, productId: int, slotName: Option<string>): (r: Option<int>)
    ensures r.None? <==> slotName.None? || forall i :: 0 <= i < |slots| ==>
      !(slots[i].productId == productId && slots[i].name == slotName.value)
    ensures r.Some? ==> (exists i :: 0 <= i < |slots| && slots[i].productId == productId
                           && slots[i].name == slotName.value && slots[i].slotId == r.value)
  {
    if slotName.None? then None else FindSlot(slots, productId, slotName.value)
  }

  /** `row.get('is_active', True)`: the row's value when the column exists, otherwise active. */
  function ActiveOf(columns: seq<string>, row: IntentCsvRow): bool
  {
    if ActiveColumn in columns then row.isActive else true
  }

  /** The intent a row is inserted as once its feature resolved (id assigned by the table). */
  function RowIntent(columns: seq<string>, row: IntentCsvRow, productId: int, featureId: int,
                     slots: seq<SlotRecord>, now: int): IntentRecord
  {
    IntentRecord(0, productId, featureId, ResolveSlot(slots, productId, row.slotName),
                 row.intentCh, row.intentEn, row.description, now, ActiveOf(columns, row))
  }

  /** What one row appends to the table when the next id is `id`: nothing when
      its feature name matches no feature of the product, otherwise its intent. */
  function RowImport(columns: seq<string>, row: IntentCsvRow, productId: int, features: seq<FeatureRecord>,
                     slots: seq<SlotRecord>, now: int, id: int): (r: seq<IntentRecord>)
    ensures |r| <= 1
  {
    match FindFeature(features, productId, row.featureName)
    case None => []
    case Some(featureId) => [RowIntent(columns, row, productId, featureId, slots, now).(intentId := id)]
  }

  /** The intents the loop appends for the first `n` rows, numbered from `startId`. */
  function ImportedIntents(csv: IntentCsv, n: nat, productId: int, features: seq<FeatureRecord>,
                           slots: seq<SlotRecord>, now: int, startId: int): (r: seq<IntentRecord>)
    requires n <= |csv.rows|
    ensures |r| <= n
  {
    if n == 0 then []
    else
      var prev := ImportedIntents(csv, n - 1, productId, features, slots, now, startId);
      prev + RowImport(csv.columns, csv.rows[n - 1], productId, features, slots, now, startId + |prev|)
  }

  /** The intent of one row, or nothing when its feature does not resolve. */
  function KeptOne(columns: seq<string>, row: IntentCsvRow, productId: int,
                   features: seq<FeatureRecord>, slots: seq<SlotRecord>, now: int): seq<IntentRecord>
  {
    match FindFeature(features, productId, row.featureName)
    case None => []
    case Some(featureId) => [RowIntent(columns, row, productId, featureId, slots, now)]
  }

  /** Reference reading of the import: keep the rows whose feature resolves, in
      order, and turn each into its intent. */
  function KeptIntents(columns: seq<string>, rows: seq<IntentCsvRow>, productId: int,
                       features: seq<FeatureRecord>, slots: seq<SlotRecord>, now: int): seq<IntentRecord>
  {
    if |rows| == 0 then []
    else KeptOne(columns, rows[0], productId, features, slots, now)
         + KeptIntents(columns, rows[1..], productId, features, slots, now)
  }

  /** Consecutive table ids from `startId`. */
  function Numbered(s: seq<IntentRecord>, startId: int): seq<IntentRecord>
  {
    seq(|s|, k requires 0 <= k < |s| => s[k].(intentId := startId + k))
  }

  lemma {:induction false} KeptIntentsSnoc(columns: seq<string>, rows: seq<IntentCsvRow>, row: IntentCsvRow,
                                           productId: int, features: seq<FeatureRecord>, slots: seq<SlotRecord>, now: int)
    ensures KeptIntents(columns, rows + [row], productId, features, slots, now)
         == KeptIntents(columns, rows, productId, features, slots, now)
          + KeptOne(columns, row, productId, features, slots, now)
  {
    var one := KeptOne(columns, row, productId, features, slots, now);
    if |rows| > 0 {
      assert (rows + [row])[1..] == rows[1..] + [row];
      KeptIntentsSnoc(columns, rows[1..], row, productId, features, slots, now);
    } else {
      assert rows + [row] == [row];
      assert KeptIntents(columns, [row], productId, features, slots, now) == one + [];
    }
  }

  lemma NumberedAppend(a: seq<IntentRecord>, b: seq<IntentRecord>, startId: int)
    ensures Numbered(a + b, startId) == Numbered(a, startId) + Numbered(b, startId + |a|)
  {
    var l := Numbered(a + b, startId);
    var r := Numbered(a, startId) + Numbered(b, startId + |a|);
    forall k | 0 <= k < |l|
      ensures l[k] == r[k]
    {
      if k >= |a| {
        assert (a + b)[k] == b[k - |a|];
      }
    }
  }

  lemma KeptIntentsPrefix(columns: seq<string>, rows: seq<IntentCsvRow>, n: nat,
                          productId: int, features: seq<FeatureRecord>, slots: seq<SlotRecord>, now: int)
    requires 0 < n <= |rows|
    ensures KeptIntents(columns, rows[..n], productId, features, slots, now)
         == KeptIntents(columns, rows[..n - 1], productId, features, slots, now)
          + KeptOne(columns, rows[n - 1], productId, features, slots, now)
  {
    assert rows[..n] == rows[..n - 1] + [rows[n - 1]];
    KeptIntentsSnoc(columns, rows[..n - 1], rows[n - 1], productId, features, slots, now);
  }

  /** If `prev` numbers `kept` and `next` adds the numbered `one` after it,
      then `next` numbers `kept + one`. */
  lemma NumberedStep(next: seq<IntentRecord>, prev: seq<IntentRecord>, keptNext: seq<IntentRecord>,
                     kept: seq<IntentRecord>, one: seq<IntentRecord>, startId: int)
    requires prev == Numbered(kept, startId)
    requires next == prev + Numbered(one, startId + |prev|)
    requires keptNext == kept + one
    ensures next == Numbered(keptNext, startId)
  {
    NumberedAppend(kept, one, startId);
  }

  /** One step of the import loop appends the numbered intent of the row, if any. */
  lemma ImportedStep(csv: IntentCsv, n: nat, productId: int, features: seq<FeatureRecord>,
                     slots: seq<SlotRecord>, now: int, startId: int)
    requires 0 < n <= |csv.rows|
    ensures ImportedIntents(csv, n, productId, features, slots, now, startId)
         == ImportedIntents(csv, n - 1, productId, features, slots, now, startId)
          + Numbered(KeptOne(csv.columns, csv.rows[n - 1], productId, features, slots, now),
                     startId + |ImportedIntents(csv, n - 1, productId, features, slots, now, startId)|)
  {
    var prev := ImportedIntents(csv, n - 1, productId, features, slots, now, startId);
    var one := KeptOne(csv.columns, csv.rows[n - 1], productId, features, slots, now);
    assert RowImport(csv.columns, csv.rows[n - 1], productId, features, slots, now, startId + |prev|)
        == Numbered(one, startId + |prev|);
  }

  /** The import loop appends exactly the intents of the rows whose feature
      resolves, in CSV order, with consecutive ids: skipping never drops a
      resolvable row and never reorders the rest. */
  lemma {:induction false} ImportIsFilterThenInsert(csv: IntentCsv, n: nat, productId: int, features: seq<FeatureRecord>,
                                                    slots: seq<SlotRecord>, now: int, startId: int)
    requires n <= |csv.rows|
    ensures ImportedIntents(csv, n, productId, features, slots, now, startId)
         == Numbered(KeptIntents(csv.columns, csv.rows[..n], productId, features, slots, now), startId)
  {
    if n > 0 {
      var prev := ImportedIntents(csv, n - 1, productId, features, slots, now, startId);
      var kept := KeptIntents(csv.columns, csv.rows[..n - 1], productId, features, slots, now);
      var one := KeptOne(csv.columns, csv.rows[n - 1], productId, features, slots, now);
      var next := ImportedIntents(csv, n, productId, features, slots, now, startId);
      var keptNext := KeptIntents(csv.columns, csv.rows[..n], productId, features, slots, now);
      assert prev == Numbered(kept, startId) by {
        ImportIsFilterThenInsert(csv, n - 1, productId, features, slots, now, startId);
      }
      assert next == prev + Numbered(one, startId + |prev|) by {
        ImportedStep(csv, n, productId, features, slots, now, startId);
      }
      assert keptNext == kept + one by {
        KeptIntentsPrefix(csv.columns, csv.rows, n, productId, features, slots, now);
      }
      NumberedStep(next, prev, keptNext, kept, one, startId);
    } else {
      assert csv.rows[..n] == [];
    }
  }

  /** The activity of every imported intent: the row's own value when the CSV
      has an `is_active` column, and active for every intent when it has none. */
  lemma {:induction false} ImportedActivity(csv: IntentCsv, n: nat, productId: int, features: seq<FeatureRecord>,
                                            slots: seq<SlotRecord>, now: int, startId: int)
    requires n <= |csv.rows|
    ensures ActiveColumn !in csv.columns ==>
      forall x :: x in ImportedIntents(csv, n, productId, features, slots, now, startId) ==> x.isActive
    ensures ActiveColumn in csv.columns ==>
      forall x :: x in ImportedIntents(csv, n, productId, features, slots, now, startId) ==>
        exists k :: 0 <= k < n && csv.rows[k].intentCh == x.intentCh && csv.rows[k].isActive == x.isActive
  {
    if n > 0 {
      ImportedActivity(csv, n - 1, productId, features, slots, now, startId);
      var prev := ImportedIntents(csv, n - 1, productId, features, slots, now, startId);
      var one := RowImport(csv.columns, csv.rows[n - 1], productId, features, slots, now, startId + |prev|);
      assert ImportedIntents(csv, n, productId, features, slots, now, startId) == prev + one;
      forall x: IntentRecord | x in prev + one
        ensures ActiveColumn !in csv.columns ==> x.isActive
        ensures ActiveColumn in csv.columns ==>
          exists k :: 0 <= k < n && csv.rows[k].intentCh == x.intentCh && csv.rows[k].isActive == x.isActive
      {
        if x !in prev {
          assert x in one;
          assert ActiveColumn in csv.columns ==>
            csv.rows[n - 1].intentCh == x.intentCh && csv.rows[n - 1].isActive == x.isActive;
        }
      }
    }
  }

  /** A CSV none of whose feature names belongs to the product imports nothing. */
  lemma {:induction false} UnknownFeaturesImportNothing(csv: IntentCsv, n: nat, productId: int, features: seq<FeatureRecord>,
                                                        slots: seq<SlotRecord>, now: int, startId: int)
    requires n <= |csv.rows|
    requires forall k, i :: 0 <= k < n && 0 <= i < |features| ==>
      !(features[i].productId == productId && features[i].name == csv.rows[k].featureName)
    ensures ImportedIntents(csv, n, productId, features, slots, now, startId) == []
  {
    if n > 0 {
      UnknownFeaturesImportNothing(csv, n - 1, productId, features, slots, now, startId);
    }
  }

  /** Row `i` reaches the insert (its feature resolves) and its insert raises. */
  predicate Raises(csv: IntentCsv, productId: int, features: seq<FeatureRecord>, failing: set<nat>, i: nat)
    requires i < |csv.rows|
  {
    i in failing && FindFeature(features, productId, csv.rows[i].featureName).Some?
  }

  /** The slot lookup of one row: stays `None` unless the cell is filled and a
      slot of the product has that name. */
  method LookUpSlot(slots: seq<SlotRecord>, productId: int, slotName: Option<string>) returns (slotId: Option<int>)
    ensures slotId == ResolveSlot(slots, productId, slotName)
  {
    slotId := None;
    if slotName.Some? {
      var found := FindSlot(slots, productId, slotName.value);
      if found.Some? {
        slotId := found;
      }
    }
  }

  lemma ImportedSnoc(csv: IntentCsv, i: nat, productId: int, features: seq<FeatureRecord>,
                     slots: seq<SlotRecord>, now: int, startId: int)
    requires i < |csv.rows|
    ensures ImportedIntents(csv, i + 1, productId, features, slots, now, startId)
         == ImportedIntents(csv, i, productId, features, slots, now, startId)
          + RowImport(csv.columns, csv.rows[i], productId, features, slots, now,
                      startId + |ImportedIntents(csv, i, productId, features, slots, now, startId)|)
  {
  }

  /** One row of the import: a row whose feature name is unknown to the product
      is skipped (`ok` stays true, nothing changes); otherwise the slot lookup
      falls back to none and the intent is inserted with the product, the resolved
      ids, the row's names and description, `now`, and its activity (active when
      the column is absent), which may raise (`ok` false). */
  method ImportRow(db: Database, productId: int, columns: seq<string>, row: IntentCsvRow, now: int, fails: bool)
    returns (ok: bool)
    modifies db`intents, db`nextIntentId
    ensures ok <==> !(fails && FindFeature(db.features, productId, row.featureName).Some?)
    ensures ok ==> (db.intents == old(db.intents)
      + RowImport(columns, row, productId, db.features, db.slots, now, old(db.nextIntentId)))
    ensures ok ==> (db.nextIntentId
      == old(db.nextIntentId) + |RowImport(columns, row, productId, db.features, db.slots, now, old(db.nextIntentId))|)
    ensures !ok ==> db.intents == old(db.intents) && db.nextIntentId == old(db.nextIntentId)
  {
    var featureId := FindFeature(db.features, productId, row.featureName);
    if featureId.None? {
      return true;
    }
    var slotId := LookUpSlot(db.slots, productId, row.slotName);
    var isActive := if ActiveColumn in columns then row.isActive else true;
    ok := db.InsertIntent(IntentRecord(0, productId, featureId.value, slotId, row.intentCh, row.intentEn,
                                       row.description, now, isActive), fails);
  }

  /** The loop over the rows of an accepted CSV, in CSV order. It stops at the
      first raising insert, whose row it returns; nothing is committed. */
  method ImportRows(db: Database, productId: int, csv: IntentCsv, now: int, failing: set<nat>)
    returns (raisedAt: Option<nat>)
    modifies db`intents, db`nextIntentId
    ensures raisedAt.Some? ==> raisedAt.value < |csv.rows| && Raises(csv, productId, db.features, failing, raisedAt.value)
    ensures forall j :: 0 <= j < |csv.rows| && (raisedAt.None? || j < raisedAt.value) ==>
      !Raises(csv, productId, db.features, failing, j)
    ensures db.intents == old(db.intents) + ImportedIntents(
      csv, if raisedAt.Some? then raisedAt.value else |csv.rows|, productId, db.features, db.slots, now, old(db.nextIntentId))
    ensures db.nextIntentId == old(db.nextIntentId) + |ImportedIntents(
      csv, if raisedAt.Some? then raisedAt.value else |csv.rows|, productId, db.features, db.slots, now, old(db.nextIntentId))|
  {
    ghost var before, start := db.intents, db.nextIntentId;
    for i := 0 to |csv.rows|
      invariant db.intents == before + ImportedIntents(csv, i, productId, db.features, db.slots, now, start)
      invariant db.nextIntentId == start + |ImportedIntents(csv, i, productId, db.features, db.slots, now, start)|
      invariant forall j :: 0 <= j < i ==> !Raises(csv, productId, db.features, failing, j)
    {
      ImportedSnoc(csv, i, productId, db.features, db.slots, now, start);
      var ok := ImportRow(db, productId, csv.columns, csv.rows[i], now, i in failing);
      if !ok {
        return Some(i);
      }
    }
    return None;
  }

  /** The confirmed CSV import: a CSV lacking a required column is refused and
      nothing changes; otherwise the rows are imported and one commit follows,
      unless an insert raised, which leaves the earlier inserts uncommitted. */
  method ImportIntentCsv(db: Database, productId: int, csv: IntentCsv, now: int, failing: set<nat>)
    returns (outcome: ImportOutcome)
    modifies db`intents, db`nextIntentId, db`savedIntents, db`savedCorpus
    ensures outcome == Rejected <==> !HeadersOk(csv.columns)
    ensures outcome == Rejected ==> unchanged(db)
    ensures outcome.RaisedAt? <==>
      HeadersOk(csv.columns) && exists j :: 0 <= j < |csv.rows| && Raises(csv, productId, db.features, failing, j)
    ensures outcome.RaisedAt? ==>
      && outcome.row < |csv.rows| && Raises(csv, productId, db.features, failing, outcome.row)
      && (forall j :: 0 <= j < outcome.row ==> !Raises(csv, productId, db.features, failing, j))
      && db.intents == old(db.intents)
           + ImportedIntents(csv, outcome.row, productId, db.features, db.slots, now, old(db.nextIntentId))
      && db.nextIntentId == old(db.nextIntentId)
           + |ImportedIntents(csv, outcome.row, productId, db.features, db.slots, now, old(db.nextIntentId))|
      && db.savedIntents == old(db.savedIntents) && db.savedCorpus == old(db.savedCorpus)
    ensures outcome == Imported ==>
      && db.intents == old(db.intents)
           + ImportedIntents(csv, |csv.rows|, productId, db.features, db.slots, now, old(db.nextIntentId))
      && db.nextIntentId == old(db.nextIntentId)
           + |ImportedIntents(csv, |csv.rows|, productId, db.features, db.slots, now, old(db.nextIntentId))|
      && db.savedIntents == db.intents && db.savedCorpus == db.corpus
  {
    var accepted := HeadersOk(csv.columns);
    if !accepted {
      return Rejected;
    }
    var raisedAt := ImportRows(db, productId, csv, now, failing);
    if raisedAt.Some? {
      return RaisedAt(raisedAt.value);
    }
    db.Commit();
    return Imported;
  }
}
