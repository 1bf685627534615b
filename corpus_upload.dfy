/** The corpus page (`src/corpus.py`): manual addition of one phrase, and the
    CSV upload, which moves through the states initial, preview and importing
    across reruns and counts, row by row, the phrases imported and the errors. */
module CorpusUpload {
  import opened Common
  import opened Store

  /** The status every preview row is created with ("ready to import"). */
  const Ready := "准备导入"

  /** The status the corrected preview gives a row whose Chinese intent name
      matches no intent of the product ("intent does not exist"). */
  const UnknownIntent := "意图不存在"

  /** The columns the preview reads from each CSV row, in the order it reads them. */
  const PreviewColumns: seq<string> := ["intent_ch", "intent_en", "corpus_en", "score", "is_active"]

  /** The entry of the intent select box that stands for every intent. */
  const AllIntents := "全部"

  /** One row of an uploaded corpus CSV. */
  datatype CsvRow = CsvRow(intentCh: string, intentEn: string, corpusEn: string, score: real, isActive: bool)

  /** An uploaded CSV: its header and its rows. */
  datatype CorpusCsv = CorpusCsv(columns: seq<string>, rows: seq<CsvRow>)

  /** A preview dict. `intentId` is `None` when the dict has no `'intent_id'` key. */
  datatype PreviewRow = PreviewRow(
    intentCh: string, intentEn: string, corpusEn: string, score: real, isActive: bool,
    status: string, intentId: Option<int>)

  /** The values of `st.session_state.upload_state`. */
  datatype UploadState = Initial | Preview | Importing

  /** The counters of one import run and the rows it inserted. */
  datatype Tally = Tally(success: nat, errors: nat, inserted: seq<CorpusRecord>)

  /** The intent select box: `{"全部": None}` updated with `{intent_ch: intent_id}`
      for the intents of the product. */
  function IntentOptions(intents: seq<IntentRecord>, productId: int): (m: map<string, Option<int>>)
  {
    map[AllIntents := None] + Lift(NameIndex(intents, (x: IntentRecord) => x.productId == productId,
                                             (x: IntentRecord) => x.intentCh, (x: IntentRecord) => x.intentId))
  }

  /** `"全部"` always offers every intent unless an intent of the product bears that
      name, which then takes over the entry; every other intent name selects the
      last intent of the product with that name. */
  lemma IntentOptionsChoices(intents: seq<IntentRecord>, productId: int)
    ensures AllIntents in IntentOptions(intents, productId)
    ensures IntentOptions(intents, productId)[AllIntents] == None <==>
      forall i :: 0 <= i < |intents| ==> !(intents[i].productId == productId && intents[i].intentCh == AllIntents)
    ensures forall i :: (0 <= i < |intents| && intents[i].productId == productId
      && LastWithName(intents, (x: IntentRecord) => x.productId == productId, (x: IntentRecord) => x.intentCh, i)) ==>
      intents[i].intentCh in IntentOptions(intents, productId) &&
      IntentOptions(intents, productId)[intents[i].intentCh] == Some(intents[i].intentId)
  {
    var keep := (x: IntentRecord) => x.productId == productId;
    var name := (x: IntentRecord) => x.intentCh;
    var idx := NameIndex(intents, keep, name, (x: IntentRecord) => x.intentId);
    NameIndexKeys(intents, keep, name, (x: IntentRecord) => x.intentId);
    NameIndexLast(intents, keep, name, (x: IntentRecord) => x.intentId);
    if IntentOptions(intents, productId)[AllIntents] == None {
      assert AllIntents !in idx;
    }
  }

  /** The "添加语料" button: inserts the phrase for the selected intent only when
      the phrase is non-empty and a concrete intent is selected (`"全部"` gives
      `None`, and an id of 0 is falsy too), then commits. */
  method AddCorpus(db: Database, text: string, score: real, isActive: bool,
                   selectedIntentId: Option<int>, fails: bool) returns (outcome: AddOutcome)
    modifies db`corpus, db`savedIntents, db`savedCorpus
    ensures !outcome.Crashed?
    ensures outcome == Refused <==> !(text != "" && selectedIntentId.Some? && selectedIntentId.value != 0)
    ensures outcome == Refused ==> unchanged(db)
    ensures outcome == Raised <==> outcome != Refused && fails
    ensures outcome == Raised ==> unchanged(db)
    ensures outcome == Added ==>
      && db.corpus == old(db.corpus) + [CorpusRecord(selectedIntentId.value, None, text, score, isActive)]
      && db.savedCorpus == db.corpus && db.savedIntents == db.intents
  {
    if text != "" && selectedIntentId.Some? && selectedIntentId.value != 0 {
      var ok := db.InsertCorpus(CorpusRecord(selectedIntentId.value, None, text, score, isActive), fails);
      if !ok {
        return Raised;
      }
      db.Commit();
      return Added;
    }
    return Refused;
  }

  /** The first of `wanted` that `columns` lacks. */
  function FirstMissing(wanted: seq<string>, columns: seq<string>): (r: Option<string>)
    ensures r.None? <==> forall i :: 0 <= i < |wanted| ==> wanted[i] in columns
    ensures r.Some? ==> r.value in wanted && r.value !in columns
  {
    if |wanted| == 0 then None
    else if wanted[0] !in columns then Some(wanted[0])
    else
      var r := FirstMissing(wanted[1..], columns);
      assert forall i :: 1 <= i < |wanted| ==> wanted[i] == wanted[1..][i - 1];
      r
  }

  /** The first column the preview reads that the CSV lacks. */
  function MissingColumn(columns: seq<string>): (r: Option<string>)
    ensures r.None? <==> forall i :: 0 <= i < |PreviewColumns| ==> PreviewColumns[i] in columns
    ensures r.Some? ==> r.value in PreviewColumns && r.value !in columns
  {
    FirstMissing(PreviewColumns, columns)
  }

  /** The dict the upload builds for one CSV row, with a given status and intent id. */
  function PreviewOf(row: CsvRow, status: string, intentId: Option<int>): PreviewRow
  {
    PreviewRow(row.intentCh, row.intentEn, row.corpusEn, row.score, row.isActive, status, intentId)
  }

  /** The preview as written: one dict per CSV row, in order, copying five
      fields, with status `准备导入` and no `'intent_id'` key. Reading a missing
      column raises `KeyError`, which can only happen when there is a row. */
  method BuildPreview(csv: CorpusCsv) returns (r: Result<seq<PreviewRow>>)
    ensures r.Failure? <==> |csv.rows| > 0 && MissingColumn(csv.columns).Some?
    ensures r.Failure? ==> r.error == KeyError(MissingColumn(csv.columns).value)
    ensures r.Success? ==> |r.value| == |csv.rows|
    ensures r.Success? ==> forall k :: 0 <= k < |csv.rows| ==> r.value[k] == PreviewOf(csv.rows[k], Ready, None)
  {
    var previewData: seq<PreviewRow> := [];
    for i := 0 to |csv.rows|
      invariant |previewData| == i
      invariant i > 0 ==> MissingColumn(csv.columns).None?
      invariant forall k :: 0 <= k < i ==> previewData[k] == PreviewOf(csv.rows[k], Ready, None)
    {
      var missing := MissingColumn(csv.columns);
      if missing.Some? {
        return Failure(KeyError(missing.value));
      }
      var row := csv.rows[i];
      previewData := previewData + [PreviewOf(row, Ready, None)];
    }
    return Success(previewData);
  }

  /** The intent id the page's own select-box dict gives a Chinese intent name,
      `intent_options.get(name)`: none for an unknown name and for `"全部"`. */
  function OptionFor(options: map<string, Option<int>>, name: string): Option<int>
  {
    if name in options then options[name] else None
  }

  /** The corrected preview row: the intent id is what the intent select box
      maps the row's Chinese intent name to; an unresolved row is not ready. */
  function ResolvedPreviewOf(row: CsvRow, intents: seq<IntentRecord>, productId: int): (p: PreviewRow)
    ensures p.status == Ready <==> p.intentId.Some?
    ensures p.intentId == OptionFor(IntentOptions(intents, productId), row.intentCh)
  {
    var id := OptionFor(IntentOptions(intents, productId), row.intentCh);
    PreviewOf(row, if id.Some? then Ready else UnknownIntent, id)
  }

  /** The corrected preview: as `BuildPreview`, but every dict carries the
      `'intent_id'` the import reads. */
  method BuildResolvedPreview(csv: CorpusCsv, intents: seq<IntentRecord>, productId: int)
    returns (r: Result<seq<PreviewRow>>)
    ensures r.Failure? <==> |csv.rows| > 0 && MissingColumn(csv.columns).Some?
    ensures r.Failure? ==> r.error == KeyError(MissingColumn(csv.columns).value)
    ensures r.Success? ==> |r.value| == |csv.rows|
    ensures r.Success? ==> forall k :: 0 <= k < |csv.rows| ==>
      r.value[k] == ResolvedPreviewOf(csv.rows[k], intents, productId)
  {
    var options := IntentOptions(intents, productId);
    var previewData: seq<PreviewRow> := [];
    for i := 0 to |csv.rows|
      invariant |previewData| == i
      invariant i > 0 ==> MissingColumn(csv.columns).None?
      invariant forall k :: 0 <= k < i ==> previewData[k] == ResolvedPreviewOf(csv.rows[k], intents, productId)
    {
      var missing := MissingColumn(csv.columns);
      if missing.Some? {
        return Failure(KeyError(missing.value));
      }
      var row := csv.rows[i];
      var intentId := if row.intentCh in options then options[row.intentCh] else None;
      var status := if intentId.Some? then Ready else UnknownIntent;
      previewData := previewData + [PreviewOf(row, status, intentId)];
    }
    return Success(previewData);
  }

  /** The import loop over the preview rows: a ready row whose dict has an
      `'intent_id'` and whose insert does not raise is a success; a row that is
      not ready, lacks the key, or whose insert raises is an error. */
  function ImportTally(rows: seq<PreviewRow>, failing: set<nat>): (t: Tally)
    ensures t.success + t.errors == |rows|
    ensures |t.inserted| == t.success
  {
    if |rows| == 0 then Tally(0, 0, [])
    else
      var k := |rows| - 1;
      var prev := ImportTally(rows[..k], failing);
      var row := rows[k];
      if row.status == Ready && row.intentId.Some? && k !in failing then
        Tally(prev.success + 1, prev.errors,
              prev.inserted + [CorpusRecord(row.intentId.value, None, row.corpusEn, row.score, row.isActive)])
      else
        Tally(prev.success, prev.errors + 1, prev.inserted)
  }

  /** As written, no preview dict has an `'intent_id'` key, so every row is
      counted as an error and nothing is inserted, whatever the store does. */
  lemma {:induction false} PreviewImportsNothing(rows: seq<PreviewRow>, failing: set<nat>)
    requires forall k :: 0 <= k < |rows| ==> rows[k].intentId == None
    ensures ImportTally(rows, failing) == Tally(0, |rows|, [])
  {
    if |rows| > 0 {
      PreviewImportsNothing(rows[..|rows| - 1], failing);
    }
  }

  /** A one-row CSV that the as-written preview and import turn into one error. */
  lemma PreviewImportCounterexample(row: CsvRow)
    ensures ImportTally([PreviewOf(row, Ready, None)], {}) == Tally(0, 1, [])
  {
    PreviewImportsNothing([PreviewOf(row, Ready, None)], {});
  }

  /** Number of rows without an intent id. */
  function Unresolved(rows: seq<PreviewRow>): nat
  {
    if |rows| == 0 then 0
    else Unresolved(rows[..|rows| - 1]) + (if rows[|rows| - 1].intentId.None? then 1 else 0)
  }

  /** The record the import inserts for a resolved preview row. */
  predicate InsertedFor(rec: CorpusRecord, row: PreviewRow)
  {
    row.intentId.Some? && rec == CorpusRecord(row.intentId.value, None, row.corpusEn, row.score, row.isActive)
  }

  /** With the corrected preview and no failing insert, exactly the rows whose
      intent could not be resolved are errors, and every inserted record is a
      resolved row's intent id with its phrase, score and activity. */
  lemma {:induction false} ResolvedPreviewImports(rows: seq<PreviewRow>)
    requires forall k :: 0 <= k < |rows| ==> (rows[k].status == Ready <==> rows[k].intentId.Some?)
    ensures ImportTally(rows, {}).errors == Unresolved(rows)
    ensures forall k :: 0 <= k < |ImportTally(rows, {}).inserted| ==>
      (exists j :: 0 <= j < |rows| && InsertedFor(ImportTally(rows, {}).inserted[k], rows[j]))
  {
    if |rows| > 0 {
      var last := |rows| - 1;
      var init := rows[..last];
      ResolvedPreviewImports(init);
      var prev := ImportTally(init, {});
      var t := ImportTally(rows, {});
      forall k | 0 <= k < |t.inserted|
        ensures exists j :: 0 <= j < |rows| && InsertedFor(t.inserted[k], rows[j])
      {
        if k < |prev.inserted| {
          assert t.inserted[k] == prev.inserted[k];
          var j :| 0 <= j < |init| && InsertedFor(prev.inserted[k], init[j]);
          assert init[j] == rows[j];
        } else {
          assert InsertedFor(t.inserted[k], rows[last]);
        }
      }
    }
  }

  /** Number of rows with an intent id whose insert raises. */
  function ResolvedFailing(rows: seq<PreviewRow>, failing: set<nat>): nat
  {
    if |rows| == 0 then 0
    else
      var k := |rows| - 1;
      ResolvedFailing(rows[..k], failing) + (if rows[k].intentId.Some? && k in failing then 1 else 0)
  }

  /** When a row is ready exactly when it has an intent id, the errors are the
      unresolved rows plus the resolved rows whose insert raises. */
  lemma {:induction false} TallyErrors(rows: seq<PreviewRow>, failing: set<nat>)
    requires forall k :: 0 <= k < |rows| ==> (rows[k].status == Ready <==> rows[k].intentId.Some?)
    ensures ImportTally(rows, failing).errors == Unresolved(rows) + ResolvedFailing(rows, failing)
  {
    if |rows| > 0 {
      TallyErrors(rows[..|rows| - 1], failing);
    }
  }

  /** A single failing insert among ready, resolved rows costs exactly that row. */
  lemma {:induction false} OneFailingInsert(rows: seq<PreviewRow>, bad: nat)
    requires forall k :: 0 <= k < |rows| ==> rows[k].status == Ready && rows[k].intentId.Some?
    ensures ImportTally(rows, {bad}).errors == if bad < |rows| then 1 else 0
  {
    if |rows| > 0 {
      OneFailingInsert(rows[..|rows| - 1], bad);
    }
  }

  /** The upload session: `upload_state` and `preview_data`. */
  class UploadSession {
    var state: UploadState
    var previewData: Option<seq<PreviewRow>>

    /** The preview data is stored exactly while the session is past its initial state. */
    ghost predicate Valid()
      reads this
    {
      state.Initial? <==> previewData.None?
    }

    /** The session on first load: initial, no preview data. */
    constructor ()
      ensures Valid() && state == Initial && previewData == None
    {
      state, previewData := Initial, None;
    }

    /** The upload block: with a file uploaded in the initial state the preview
        is built and, when confirm is pressed, stored and the state becomes
        preview. A missing column raises and ends the rerun. The preview is the
        one the page builds (`resolveIntents` false: no intent ids) or the
        corrected one (`resolveIntents` true). */
    method ConfirmUpload(db: Database, uploaded: Option<CorpusCsv>, productId: int, confirmPressed: bool,
                         resolveIntents: bool)
      returns (r: Result<()>)
      requires Valid()
      modifies this
      ensures Valid()
      ensures !(old(state) == Initial && uploaded.Some?) ==>
        r.Success? && state == old(state) && previewData == old(previewData)
      ensures old(state) == Initial && uploaded.Some? ==>
        (r.Failure? <==> |uploaded.value.rows| > 0 && MissingColumn(uploaded.value.columns).Some?)
      ensures r.Failure? || !confirmPressed ==> state == old(state) && previewData == old(previewData)
      ensures old(state) == Initial && uploaded.Some? && r.Success? && confirmPressed ==>
        && state == Preview && previewData.Some?
        && |previewData.value| == |uploaded.value.rows|
        && forall k :: 0 <= k < |uploaded.value.rows| ==>
             previewData.value[k] == if resolveIntents then ResolvedPreviewOf(uploaded.value.rows[k], db.intents, productId)
                                     else PreviewOf(uploaded.value.rows[k], Ready, None)
    {
      if uploaded.Some? && state == Initial {
        var preview;
        if resolveIntents {
          preview := BuildResolvedPreview(uploaded.value, db.intents, productId);
        } else {
          preview := BuildPreview(uploaded.value);
        }
        if preview.Failure? {
          return Failure(preview.error);
        }
        if confirmPressed {
          previewData := Some(preview.value);
          state := Preview;
        }
      }
      return Success(());
    }

    /** The preview block: the final confirm moves preview to importing. */
    method FinalConfirm(pressed: bool)
      requires Valid()
      modifies this`state
      ensures Valid()
      ensures state == if old(state) == Preview && pressed then Importing else old(state)
    {
      if state == Preview && pressed {
        state := Importing;
      }
    }

    /** The importing block: every preview row is tried in order, errors are
        counted and do not stop the loop, one commit follows, and the session
        always returns to the initial state with no preview data. */
    method RunImport(db: Database, failing: set<nat>) returns (success: nat, errors: nat)
      requires Valid()
      modifies this, db`corpus, db`savedIntents, db`savedCorpus
      ensures Valid()
      ensures old(state) != Importing ==>
        success == 0 && errors == 0 && state == old(state) && previewData == old(previewData) && unchanged(db)
      ensures old(state) == Importing ==>
        && state == Initial && previewData == None
        && success == ImportTally(old(previewData).value, failing).success
        && errors == ImportTally(old(previewData).value, failing).errors
        && success + errors == |old(previewData).value|
        && db.corpus == old(db.corpus) + ImportTally(old(previewData).value, failing).inserted
        && db.savedCorpus == db.corpus && db.savedIntents == db.intents
    {
      success, errors := 0, 0;
      if state != Importing {
        return;
      }
      var rows := previewData.value;
      for i := 0 to |rows|
        invariant success == ImportTally(rows[..i], failing).success
        invariant errors == ImportTally(rows[..i], failing).errors
        invariant db.corpus == old(db.corpus) + ImportTally(rows[..i], failing).inserted
      {
        var row := rows[i];
        assert rows[..i + 1][..i] == rows[..i];
        if row.status == Ready {
          if row.intentId.Some? {
            var ok := db.InsertCorpus(CorpusRecord(row.intentId.value, None, row.corpusEn, row.score, row.isActive),
                                      i in failing);
            if ok {
              success := success + 1;
            } else {
              errors := errors + 1;
            }
          } else {
            errors := errors + 1;
          }
        } else {
          errors := errors + 1;
        }
      }
      assert rows[..|rows|] == rows;
      db.Commit();
      state := Initial;
      previewData := None;
    }
  }

  /** The page as written, over three reruns from a fresh session: upload and
      confirm, final confirm, import. Unless a missing column stops the upload,
      every row is counted as an error, nothing is imported and the corpus
      table keeps its rows. */
  method UploadAsWritten(db: Database, csv: CorpusCsv, productId: int, failing: set<nat>)
    returns (success: nat, errors: nat)
    modifies db`corpus, db`savedIntents, db`savedCorpus
    ensures success == 0
    ensures errors == if |csv.rows| > 0 && MissingColumn(csv.columns).Some? then 0 else |csv.rows|
    ensures db.corpus == old(db.corpus)
    ensures if |csv.rows| > 0 && MissingColumn(csv.columns).Some?
            then db.savedIntents == old(db.savedIntents) && db.savedCorpus == old(db.savedCorpus)
            else db.savedIntents == db.intents && db.savedCorpus == db.corpus
  {
    var session := new UploadSession();
    var r := session.ConfirmUpload(db, Some(csv), productId, true, false);
    if r.Failure? {
      return 0, 0;
    }
    session.FinalConfirm(true);
    PreviewImportsNothing(session.previewData.value, failing);
    success, errors := session.RunImport(db, failing);
  }
}
