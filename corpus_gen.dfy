/** The corpus-generation page (`src/corpus_gen.py`): the examples box and the
    style option become the arguments of one generator call, the generator's
    batches are flattened into staged rows, the reviewer edits and deletes rows
    in a grid, and an import appends the rows to the `corpus` table. */
module CorpusGen {
  import opened Common
  import opened Text
  import opened Store

  /** The options of the style select box: a Chinese label with the English token in parentheses. */
  const StyleOptions: seq<string> := ["常规(Normal)", "正式(Formal)", "随意(Casual)", "口语化(Colloquial)"]

  /** The score every generated phrase is staged with. */
  const DefaultScore: real := 0.9

  /** One answer of the generator: an `Instruction` and its list of phrases. */
  datatype Instruction = Instruction(phrases: seq<string>)

  /** The arguments of one call of the phrase generator. */
  datatype GeneratorCall = GeneratorCall(
    subject: string, operation: string, style: string, examples: seq<string>,
    slots: string, n: int, extra: string, runs: int)

  /** A row of the staging grid, columns 意图ID, 槽位ID, 英文意图 and 分数. */
  datatype StagedRow = StagedRow(intentId: int, slotId: Option<int>, text: string, score: real)

  // ---------------------------------------------------------------------------
  // The examples box

  /** A line of the examples box as it appears in the example list:
      non-empty, one line, no surrounding whitespace. */
  predicate IsExample(e: string) {
    e != "" && '\n' !in e && !IsSpace(e[0]) && !IsSpace(e[|e| - 1])
  }

  /** No line of `lines` holds a line break. */
  predicate SingleLines(lines: seq<string>) {
    forall i :: 0 <= i < |lines| ==> '\n' !in lines[i]
  }

  /** `[line.strip() for line in lines if line.strip()]`: the stripped lines
      that are not empty. */
  function StrippedNonBlank(lines: seq<string>): (r: seq<string>)
    ensures |r| <= |lines|
  {
    if |lines| == 0 then []
    else
      var t := Strip(lines[0]);
      var rest := StrippedNonBlank(lines[1..]);
      if t == "" then rest else [t] + rest
  }

  /** Stripping single lines and dropping the blank ones leaves only examples. */
  lemma {:induction false} StrippedNonBlankExamples(lines: seq<string>)
    requires SingleLines(lines)
    ensures forall k :: 0 <= k < |StrippedNonBlank(lines)| ==> IsExample(StrippedNonBlank(lines)[k])
  {
    if |lines| > 0 {
      var t := Strip(lines[0]);
      assert '\n' !in lines[0];
      assert '\n' !in t;
      assert SingleLines(lines[1..]) by {
        forall i | 0 <= i < |lines[1..]| ensures '\n' !in lines[1..][i] {
          assert lines[1..][i] == lines[i + 1];
        }
      }
      StrippedNonBlankExamples(lines[1..]);
    }
  }

  /** The example list built from the examples box: its non-blank lines, stripped. */
  function SplitExamples(text: string): (examples: seq<string>)
    ensures forall k :: 0 <= k < |examples| ==> IsExample(examples[k])
  {
    StrippedNonBlankExamples(Split(text, '\n'));
    StrippedNonBlank(Split(text, '\n'))
  }

  lemma {:induction false} StrippedNonBlankConcat(a: seq<string>, b: seq<string>)
    ensures StrippedNonBlank(a + b) == StrippedNonBlank(a) + StrippedNonBlank(b)
  {
    if |a| > 0 {
      assert (a + b)[0] == a[0] && (a + b)[1..] == a[1..] + b;
      StrippedNonBlankConcat(a[1..], b);
      var t := Strip(a[0]);
      var rest := StrippedNonBlank(a[1..]);
      assert StrippedNonBlank(a + b) == (if t == "" then [] else [t]) + StrippedNonBlank(a[1..] + b);
      assert StrippedNonBlank(a) == (if t == "" then [] else [t]) + rest;
    } else {
      assert a + b == b;
    }
  }

  lemma {:induction false} StrippedNonBlankKeepsExamples(examples: seq<string>)
    requires forall k :: 0 <= k < |examples| ==> IsExample(examples[k])
    ensures StrippedNonBlank(examples) == examples
  {
    if |examples| > 0 {
      TrimKeepsTrimmed(examples[0], IsSpace);
      StrippedNonBlankKeepsExamples(examples[1..]);
      assert [examples[0]] + examples[1..] == examples;
    }
  }

  /** A text holding the examples one per line gives back exactly those examples. */
  lemma {:induction false} SplitExamplesJoin(examples: seq<string>)
    requires forall k :: 0 <= k < |examples| ==> IsExample(examples[k])
    ensures SplitExamples(Join(examples, '\n')) == examples
  {
    if |examples| == 0 {
      assert Split("", '\n') == [""];
      assert Strip("") == "";
    } else {
      SplitJoin(examples, '\n');
      StrippedNonBlankKeepsExamples(examples);
    }
  }

  /** Line order is kept: the examples of two texts joined by a line break are
      the examples of the first followed by those of the second. */
  lemma SplitExamplesConcat(a: string, b: string)
    ensures SplitExamples(a + "\n" + b) == SplitExamples(a) + SplitExamples(b)
  {
    SplitConcat(a, b, '\n');
    StrippedNonBlankConcat(Split(a, '\n'), Split(b, '\n'));
  }

  /** Blank lines contribute nothing: a text of whitespace alone gives no examples. */
  lemma {:induction false} SplitExamplesOfBlank(w: string)
    requires forall i :: 0 <= i < |w| ==> IsSpace(w[i])
    ensures SplitExamples(w) == []
    decreases |w|
  {
    if '\n' in w {
      var i :| 0 <= i < |w| && w[i] == '\n';
      assert w == w[..i] + "\n" + w[i + 1..];
      SplitExamplesOfBlank(w[..i]);
      SplitExamplesOfBlank(w[i + 1..]);
      SplitExamplesConcat(w[..i], w[i + 1..]);
    } else {
      SplitNoSeparator(w, '\n');
    }
  }

  // ---------------------------------------------------------------------------
  // The style option

  predicate IsCloseParen(c: char) {
    c == ')'
  }

  /** `option.split('(')[1].strip(')')`: the text after the first `(` without
      closing parentheses at its ends; an option without `(` raises `IndexError`. */
  function StyleToken(option: string): (r: Result<string>)
    ensures r.Failure? <==> '(' !in option
    ensures r.Failure? ==> r.error == IndexError
  {
    var parts := Split(option, '(');
    SplitHasSecondPiece(option, '(');
    if |parts| < 2 then Failure(IndexError) else Success(Trim(parts[1], IsCloseParen))
  }

  /** The token of `p(w)` is `w` when neither part holds `(` and `w` does not
      begin or end with `)`. */
  lemma StyleTokenOfLabel(p: string, w: string)
    requires '(' !in p && '(' !in w
    requires w == [] || (w[0] != ')' && w[|w| - 1] != ')')
    ensures StyleToken(p + "(" + w + ")") == Success(w)
  {
    var tail := w + ")";
    assert p + "(" + w + ")" == Join([p, tail], '(');
    SplitJoin([p, tail], '(');
    TrimDropsLast(w, ')', IsCloseParen);
  }

  /** The Chinese names and the English tokens of the four style options, in option order. */
  const StyleNames: seq<string> := ["常规", "正式", "随意", "口语化"]
  const StyleTokens: seq<string> := ["Normal", "Formal", "Casual", "Colloquial"]

  /** Each option is spelt name, `(`, token, `)`. */
  lemma StyleOptionSpelled(i: nat)
    requires i < |StyleOptions|
    ensures |StyleNames| == |StyleTokens| == |StyleOptions|
    ensures StyleOptions[i] == StyleNames[i] + "(" + StyleTokens[i] + ")"
    ensures '(' !in StyleNames[i] && '(' !in StyleTokens[i] && ')' !in StyleTokens[i]
    ensures StyleTokens[i] != ""
  {
  }

  /** Each style option yields its English token. */
  lemma StyleOptionToken(i: nat)
    requires i < |StyleOptions|
    ensures StyleToken(StyleOptions[i]) == Success(StyleTokens[i])
  {
    StyleOptionSpelled(i);
    StyleTokenOfLabel(StyleNames[i], StyleTokens[i]);
  }

  /** The four options yield four different tokens. */
  lemma StyleTokensDistinct(i: nat, j: nat)
    requires i < j < |StyleOptions|
    ensures StyleToken(StyleOptions[i]).Success? && StyleToken(StyleOptions[j]).Success?
    ensures StyleToken(StyleOptions[i]).value != StyleToken(StyleOptions[j]).value
  {
    StyleOptionToken(i);
    StyleOptionToken(j);
    TokensDiffer(i, j);
  }

  lemma TokensDiffer(i: nat, j: nat)
    requires i < j < |StyleTokens|
    ensures StyleTokens[i] != StyleTokens[j]
  {
    assert StyleTokens[i][0] != StyleTokens[j][0] || |StyleTokens[i]| != |StyleTokens[j]|;
  }

  // ---------------------------------------------------------------------------
  // Generation and staging

  /** The call `generate_corpus` makes: no slot glossary, one run, the requested count. */
  function GeneratorCallFor(productName: string, intentName: string, extraInfo: string,
                            styleLabel: string, examples: seq<string>, nums: int): (r: Result<GeneratorCall>)
    ensures r.Failure? <==> '(' !in styleLabel
    ensures r.Success? ==> r.value.slots == "" && r.value.runs == 1 && r.value.n == nums
    ensures r.Success? ==> StyleToken(styleLabel) == Success(r.value.style)
    ensures r.Success? ==> r.value.subject == productName && r.value.operation == intentName
    ensures r.Success? ==> r.value.examples == examples && r.value.extra == extraInfo
  {
    match StyleToken(styleLabel)
    case Failure(e) => Failure(e)
    case Success(style) =>
      Success(GeneratorCall(productName, intentName, style, examples, "", nums, extraInfo, 1))
  }

  /** The staged rows of one batch. */
  function StageBatch(intentId: int, phrases: seq<string>): (rows: seq<StagedRow>)
    ensures |rows| == |phrases|
  {
    seq(|phrases|, j requires 0 <= j < |phrases| => StagedRow(intentId, None, phrases[j], DefaultScore))
  }

  /** Number of phrases over all batches. */
  function PhraseCount(batches: seq<Instruction>): nat
  {
    if |batches| == 0 then 0 else PhraseCount(batches[..|batches| - 1]) + |batches[|batches| - 1].phrases|
  }

  /** The staged rows of all batches, batch after batch: one row per phrase,
      each with the selected intent, no slot and the default score. */
  function Staged(intentId: int, batches: seq<Instruction>): (rows: seq<StagedRow>)
    ensures |rows| == PhraseCount(batches)
    ensures forall k :: 0 <= k < |rows| ==>
      rows[k].intentId == intentId && rows[k].slotId == None && rows[k].score == DefaultScore
  {
    if |batches| == 0 then []
    else Staged(intentId, batches[..|batches| - 1]) + StageBatch(intentId, batches[|batches| - 1].phrases)
  }

  /** The phrases of all batches in batch order, then phrase order. */
  function AllPhrases(batches: seq<Instruction>): seq<string>
  {
    if |batches| == 0 then [] else batches[0].phrases + AllPhrases(batches[1..])
  }

  lemma {:induction false} AllPhrasesSnoc(batches: seq<Instruction>, b: Instruction)
    ensures AllPhrases(batches + [b]) == AllPhrases(batches) + b.phrases
  {
    if |batches| == 0 {
      assert batches + [b] == [b];
    } else {
      assert (batches + [b])[1..] == batches[1..] + [b];
      AllPhrasesSnoc(batches[1..], b);
    }
  }

  /** The staged texts are the generator's phrases verbatim, in batch order and then phrase order. */
  lemma {:induction false} StagedTexts(intentId: int, batches: seq<Instruction>)
    ensures |Staged(intentId, batches)| == |AllPhrases(batches)|
    ensures forall k :: 0 <= k < |AllPhrases(batches)| ==> Staged(intentId, batches)[k].text == AllPhrases(batches)[k]
  {
    if |batches| > 0 {
      var init, last := batches[..|batches| - 1], batches[|batches| - 1];
      StagedTexts(intentId, init);
      assert init + [last] == batches;
      AllPhrasesSnoc(init, last);
    }
  }

  /** Three batches `a`, `b c`, `d` are staged as `a b c d`. */
  lemma StagedExample(intentId: int)
    ensures var rows := Staged(intentId, [Instruction(["a"]), Instruction(["b", "c"]), Instruction(["d"])]);
      |rows| == 4 && rows[0].text == "a" && rows[1].text == "b" && rows[2].text == "c" && rows[3].text == "d"
  {
    var batches := [Instruction(["a"]), Instruction(["b", "c"]), Instruction(["d"])];
    StagedTexts(intentId, batches);
    assert AllPhrases(batches) == ["a", "b", "c", "d"];
  }

  /** What `generate_corpus` yields for a generator, given as the function from
      its call to its batches (`None` when the call raises). */
  function Generation(intentId: int, productName: string, intentName: string, extraInfo: string,
                      styleLabel: string, examples: seq<string>, nums: int,
                      generator: GeneratorCall -> Option<seq<Instruction>>): Result<seq<StagedRow>>
  {
    match GeneratorCallFor(productName, intentName, extraInfo, styleLabel, examples, nums)
    case Failure(e) => Failure(e)
    case Success(call) =>
      match generator(call)
      case None => Failure(GeneratorError)
      case Some(batches) => Success(Staged(intentId, batches))
  }

  /** `generate_corpus`: one generator call, then the batches flattened into
      staged rows by two nested loops. */
  method GenerateCorpus(intentId: int, productName: string, intentName: string, extraInfo: string,
                        styleLabel: string, examples: seq<string>, nums: int,
                        generator: GeneratorCall -> Option<seq<Instruction>>)
    returns (r: Result<seq<StagedRow>>)
    ensures r == Generation(intentId, productName, intentName, extraInfo, styleLabel, examples, nums, generator)
  {
    var call := GeneratorCallFor(productName, intentName, extraInfo, styleLabel, examples, nums);
    if call.Failure? {
      return Failure(call.error);
    }
    var answer := generator(call.value);
    if answer.None? {
      return Failure(GeneratorError);
    }
    var batches := answer.value;
    var corpusData: seq<StagedRow> := [];
    var i := 0;
    while i < |batches|
      invariant 0 <= i <= |batches|
      invariant corpusData == Staged(intentId, batches[..i])
    {
      var phrases := batches[i].phrases;
      var j := 0;
      while j < |phrases|
        invariant 0 <= j <= |phrases|
        invariant corpusData == Staged(intentId, batches[..i]) + StageBatch(intentId, phrases[..j])
      {
        corpusData := corpusData + [StagedRow(intentId, None, phrases[j], DefaultScore)];
        j := j + 1;
      }
      assert phrases[..j] == phrases;
      assert batches[..i + 1][..i] == batches[..i];
      i := i + 1;
    }
    assert batches[..i] == batches;
    return Success(corpusData);
  }

  // ---------------------------------------------------------------------------
  // The staging grid

  /** A reviewer's edit of one grid row: the new phrase and score. */
  datatype CellEdit = CellEdit(text: string, score: real)

  /** The grid's rows after the reviewer's edits; only text and score are editable. */
  function ApplyEdits(rows: seq<StagedRow>, edits: map<nat, CellEdit>): (r: seq<StagedRow>)
    ensures |r| == |rows|
    ensures forall k :: 0 <= k < |rows| ==> r[k].intentId == rows[k].intentId && r[k].slotId == rows[k].slotId
    ensures forall k :: 0 <= k < |rows| && k !in edits ==> r[k] == rows[k]
    ensures forall k :: 0 <= k < |rows| && k in edits ==> r[k].text == edits[k].text && r[k].score == edits[k].score
  {
    seq(|rows|, k requires 0 <= k < |rows| =>
      if k in edits then rows[k].(text := edits[k].text, score := edits[k].score) else rows[k])
  }

  /** `df[~df.index.isin(selected)]`: the rows whose position is not selected. */
  function DeleteRows<T>(rows: seq<T>, selected: set<int>): (kept: seq<T>)
    ensures |kept| <= |rows|
  {
    if |rows| == 0 then []
    else
      var n := |rows| - 1;
      DeleteRows(rows[..n], selected) + (if n in selected then [] else [rows[n]])
  }

  /** The positions below `n` that are not selected, ascending. */
  function KeptIndices(n: nat, selected: set<int>): (ks: seq<nat>)
    ensures forall k :: 0 <= k < |ks| ==> ks[k] < n && ks[k] !in selected
    ensures forall i :: 0 <= i < n && i !in selected ==> i in ks
    ensures forall k, l :: 0 <= k < l < |ks| ==> ks[k] < ks[l]
  {
    if n == 0 then [] else KeptIndices(n - 1, selected) + (if n - 1 in selected then [] else [n - 1])
  }

  /** Deleting keeps exactly the unselected rows, in their original order. */
  lemma {:induction false} DeleteRowsKeeps<T>(rows: seq<T>, selected: set<int>)
    ensures |DeleteRows(rows, selected)| == |KeptIndices(|rows|, selected)|
    ensures forall k :: 0 <= k < |DeleteRows(rows, selected)| ==>
      DeleteRows(rows, selected)[k] == rows[KeptIndices(|rows|, selected)[k]]
  {
    if |rows| > 0 {
      var n := |rows| - 1;
      DeleteRowsKeeps(rows[..n], selected);
      var prev := DeleteRows(rows[..n], selected);
      var ks := KeptIndices(n, selected);
      assert DeleteRows(rows, selected) == prev + (if n in selected then [] else [rows[n]]);
      assert KeptIndices(|rows|, selected) == ks + (if n in selected then [] else [n]);
      forall k | 0 <= k < |prev|
        ensures DeleteRows(rows, selected)[k] == rows[KeptIndices(|rows|, selected)[k]]
      {
        assert rows[..n][ks[k]] == rows[ks[k]];
      }
    }
  }

  /** The selected positions that fall inside a grid of `n` rows. */
  function SelectedBelow(n: nat, selected: set<int>): set<int>
  {
    set i | 0 <= i < n && i in selected
  }

  /** Deleting removes one row per selected position inside the grid and no other. */
  lemma {:induction false} DeleteRowsCount<T>(rows: seq<T>, selected: set<int>)
    ensures |DeleteRows(rows, selected)| + |SelectedBelow(|rows|, selected)| == |rows|
  {
    if |rows| == 0 {
      assert SelectedBelow(0, selected) == {};
    } else {
      var n := |rows| - 1;
      DeleteRowsCount(rows[..n], selected);
      assert rows[..n] == rows[..|rows| - 1];
      if n in selected {
        assert SelectedBelow(n + 1, selected) == SelectedBelow(n, selected) + {n};
        assert n !in SelectedBelow(n, selected);
      } else {
        assert SelectedBelow(n + 1, selected) == SelectedBelow(n, selected);
      }
    }
  }

  /** Deleting rows 0 and 2 of three leaves the row that was at position 1. */
  lemma DeleteRowsExample<T>(a: T, b: T, c: T)
    ensures DeleteRows([a, b, c], {0, 2}) == [b]
  {
    var sel: set<int> := {0, 2};
    assert [a, b, c][..2] == [a, b] && [a, b][..1] == [a] && [a][..0] == [];
    assert DeleteRows([a], sel) == [];
    assert DeleteRows([a, b], sel) == [b];
  }

  // ---------------------------------------------------------------------------
  // Import

  /** The corpus rows an import of `rows` adds: the function's intent id (not
      the grid's 意图ID column), the row's slot, text and score, active. */
  function Imported(intentId: int, rows: seq<StagedRow>): (recs: seq<CorpusRecord>)
    ensures |recs| == |rows|
    ensures forall k :: 0 <= k < |rows| ==>
      recs[k] == CorpusRecord(intentId, rows[k].slotId, rows[k].text, rows[k].score, true)
  {
    if |rows| == 0 then []
    else
      var last := rows[|rows| - 1];
      Imported(intentId, rows[..|rows| - 1]) + [CorpusRecord(intentId, last.slotId, last.text, last.score, true)]
  }

  /** `import_corpus`: one insert per row in order, then one commit. An insert
      that raises ends the import before the commit, leaving the rows inserted
      so far uncommitted on the connection. Nothing is deduplicated. */
  method ImportCorpus(db: Database, rows: seq<StagedRow>, intentId: int, failing: set<nat>) returns (ok: bool)
    modifies db`corpus, db`savedIntents, db`savedCorpus
    ensures ok <==> FirstFailure(failing, |rows|).None?
    ensures ok ==> db.corpus == old(db.corpus) + Imported(intentId, rows)
    ensures ok ==> db.savedCorpus == db.corpus && db.savedIntents == db.intents
    ensures !ok ==> db.corpus == old(db.corpus) + Imported(intentId, rows[..FirstFailure(failing, |rows|).value])
    ensures !ok ==> db.savedCorpus == old(db.savedCorpus) && db.savedIntents == old(db.savedIntents)
  {
    var i := 0;
    while i < |rows|
      invariant 0 <= i <= |rows|
      invariant forall j :: 0 <= j < i ==> j !in failing
      invariant db.corpus == old(db.corpus) + Imported(intentId, rows[..i])
      invariant db.savedCorpus == old(db.savedCorpus) && db.savedIntents == old(db.savedIntents)
    {
      var row := rows[i];
      var inserted := db.InsertCorpus(CorpusRecord(intentId, row.slotId, row.text, row.score, true), i in failing);
      if !inserted {
        assert FirstFailure(failing, |rows|) == Some(i);
        return false;
      }
      assert rows[..i + 1][..i] == rows[..i];
      i := i + 1;
    }
    assert rows[..i] == rows;
    db.Commit();
    return true;
  }

  // ---------------------------------------------------------------------------
  // The page across reruns

  /** The form and widgets of one rerun of the page. */
  datatype PageInput = PageInput(
    intentId: int, productName: string, intentName: string, extraInfo: string,
    styleLabel: string, exampleText: string, count: int,
    generatePressed: bool, generator: GeneratorCall -> Option<seq<Instruction>>,
    edits: map<nat, CellEdit>, selected: set<int>,
    deletePressed: bool, importPressed: bool, failing: set<nat>)

  datatype RunOutcome = Aborted(error: Error) | Idle | Shown | ImportDone | ImportFailed

  /** The staged corpus once the generate button of this rerun has been handled;
      a failing generation ends the rerun. */
  function AfterGenerate(current: Option<seq<StagedRow>>, input: PageInput): Result<Option<seq<StagedRow>>>
  {
    if !input.generatePressed then Success(current)
    else
      match Generation(input.intentId, input.productName, input.intentName, input.extraInfo,
                       input.styleLabel, SplitExamples(input.exampleText), input.count, input.generator)
      case Failure(e) => Failure(e)
      case Success(rows) => Success(Some(rows))
  }

  /** The rows the grid hands to the import in this rerun: the reviewer's edits
      applied and, only when delete was pressed in this same rerun, the selected
      rows dropped. */
  function GridData(rows: seq<StagedRow>, input: PageInput): seq<StagedRow>
  {
    var edited := ApplyEdits(rows, input.edits);
    if input.deletePressed then DeleteRows(edited, input.selected) else edited
  }

  /** The session state of the page: `generated_corpus` and `import_clicked`. */
  class GenSession {
    var generatedCorpus: Option<seq<StagedRow>>
    var importClicked: bool

    /** A fresh session: nothing generated, import not clicked. */
    constructor ()
      ensures generatedCorpus == None && !importClicked
    {
      generatedCorpus, importClicked := None, false;
    }

    /** One rerun of `manage_corpus_gen` after the selections are made. Deleting
        only rebinds the grid data of this rerun; the staged corpus itself is
        never reduced. A successful import clears the staged corpus and the
        clicked flag; a failed one keeps both, so the next rerun imports again. */
    method Rerun(db: Database, input: PageInput) returns (outcome: RunOutcome)
      modifies this, db`corpus, db`savedIntents, db`savedCorpus
      ensures AfterGenerate(old(generatedCorpus), input).Failure? ==>
        && outcome == Aborted(AfterGenerate(old(generatedCorpus), input).error)
        && generatedCorpus == old(generatedCorpus) && importClicked == old(importClicked)
        && unchanged(db)
      ensures AfterGenerate(old(generatedCorpus), input) == Success(None) ==>
        outcome == Idle && generatedCorpus == None && importClicked == old(importClicked) && unchanged(db)
      ensures AfterGenerate(old(generatedCorpus), input).Success? && AfterGenerate(old(generatedCorpus), input).value.Some?
              && !old(importClicked) && !input.importPressed ==>
        outcome == Shown && generatedCorpus == AfterGenerate(old(generatedCorpus), input).value
        && !importClicked && unchanged(db)
      ensures AfterGenerate(old(generatedCorpus), input).Success? && AfterGenerate(old(generatedCorpus), input).value.Some?
              && (old(importClicked) || input.importPressed) ==>
        var staged := AfterGenerate(old(generatedCorpus), input).value;
        var data := GridData(staged.value, input);
        match FirstFailure(input.failing, |data|)
        case None =>
          && outcome == ImportDone && generatedCorpus == None && !importClicked
          && db.corpus == old(db.corpus) + Imported(input.intentId, data)
          && db.savedCorpus == db.corpus && db.savedIntents == db.intents
        case Some(k) =>
          && outcome == ImportFailed && generatedCorpus == staged && importClicked
          && db.corpus == old(db.corpus) + Imported(input.intentId, data[..k])
          && db.savedCorpus == old(db.savedCorpus) && db.savedIntents == old(db.savedIntents)
    {
      var exampleArray := SplitExamples(input.exampleText);
      if input.generatePressed {
        var generated := GenerateCorpus(input.intentId, input.productName, input.intentName, input.extraInfo,
                                        input.styleLabel, exampleArray, input.count, input.generator);
        if generated.Failure? {
          return Aborted(generated.error);
        }
        generatedCorpus := Some(generated.value);
      }
      if generatedCorpus.None? {
        return Idle;
      }
      var updated := ApplyEdits(generatedCorpus.value, input.edits);
      if input.deletePressed {
        updated := DeleteRows(updated, input.selected);
      }
      if input.importPressed {
        importClicked := true;
      }
      if !importClicked {
        return Shown;
      }
      var ok := ImportCorpus(db, updated, input.intentId, input.failing);
      if ok {
        importClicked := false;
        generatedCorpus := None;
        return ImportDone;
      }
      return ImportFailed;
    }
  }
}
