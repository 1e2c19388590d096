/** The submission step of the survey page: the name guard, the record the
    page enriches with who answered, as what and when, and the CSV file that
    each accepted submission appends one line to. */
module Storage {
  import opened Questionnaire

  const NameKey := "이름"
  const PositionKey := "직책"
  const TimeKey := "제출시간"
  /** The columns the submission step adds after the questions, in order. */
  const MetaKeys: seq<string> := [NameKey, PositionKey, TimeKey]

  /** The answers extended with who submitted, as what and when; a key that
      is already present is overwritten, as a dictionary update does. */
  function Record(ans: map<string, string>, name: string, position: string, time: string)
    : (rec: map<string, string>)
    ensures rec.Keys == ans.Keys + {NameKey, PositionKey, TimeKey}
    ensures rec[NameKey] == name && rec[PositionKey] == position && rec[TimeKey] == time
    ensures forall k :: k in ans && k !in MetaKeys ==> rec[k] == ans[k]
  {
    ans + map[NameKey := name, PositionKey := position, TimeKey := time]
  }

  /** The metadata keys never collide with a question key. */
  lemma MetaKeysDisjoint(position: string)
    ensures forall k :: k in MetaKeys ==> k !in Compose(position)
  {
    if position != Unselected {
      assert Compose(position) == CommonKeys + Addendum(position) + EssayKeys;
      MetaKeysNotInBlocks();
    }
  }

  lemma MetaKeysNotInBlocks()
    ensures forall k :: k in MetaKeys ==> k !in CommonKeys && k !in EssayKeys
    ensures forall k :: k in MetaKeys ==> k !in StaffKeys && k !in LeaderKeys && k !in ExecutiveKeys
  {
  }

  /** Enriching the collected answers keeps every answer as it was. */
  lemma MetaKeysAreNotQuestions(position: string, picks: map<string, Level>, texts: map<string, string>,
                                name: string, time: string)
    ensures var ans := Collect(position, picks, texts);
      forall k :: k in ans ==> Record(ans, name, position, time)[k] == ans[k]
  {
    MetaKeysDisjoint(position);
  }

  /** The columns of the one-row table written for a position: the answer
      keys in the order they were asked, then the metadata keys. */
  function Columns(position: string): (columns: seq<string>)
    ensures Distinct(columns)
    ensures |columns| == |Compose(position)| + 3
    ensures forall i :: 0 <= i < |Compose(position)| ==> columns[i] == Compose(position)[i]
    ensures columns[|Compose(position)|..] == MetaKeys
  {
    ColumnsDistinct(position);
    Compose(position) + MetaKeys
  }

  /** The columns are the question keys and the metadata keys, and nothing
      else. */
  lemma ColumnsMembers(position: string)
    ensures forall k :: k in Columns(position) <==> k in Compose(position) || k in MetaKeys
  {
    assert Columns(position) == Compose(position) + MetaKeys;
  }

  lemma ColumnsDistinct(position: string)
    ensures Distinct(Compose(position) + MetaKeys)
  {
    ComposeDistinct(position);
    MetaKeysDisjoint(position);
    DistinctConcat(Compose(position), MetaKeys);
  }

  lemma DistinctConcat(x: seq<string>, y: seq<string>)
    requires Distinct(x) && Distinct(y)
    requires forall k :: k in y ==> k !in x
    ensures Distinct(x + y)
  {
    var s := x + y;
    forall i, j | 0 <= i < j < |s|
      ensures s[i] != s[j]
    {
      if j < |x| {
        assert s[i] == x[i] && s[j] == x[j];
      } else if i >= |x| {
        assert s[i] == y[i - |x|] && s[j] == y[j - |x|];
      } else {
        assert s[i] == x[i] && s[j] == y[j - |x|];
        assert y[j - |x|] in y;
      }
    }
  }

  /** The cells of a data line: the record's value under each column, and
      an empty cell where the record has no value. */
  function Cells(columns: seq<string>, rec: map<string, string>): (cells: seq<string>)
    ensures |cells| == |columns|
    ensures forall i :: 0 <= i < |columns| && columns[i] in rec ==> cells[i] == rec[columns[i]]
    ensures forall i :: 0 <= i < |columns| && columns[i] !in rec ==> cells[i] == ""
  {
    seq(|columns|, i requires 0 <= i < |columns| => if columns[i] in rec then rec[columns[i]] else "")
  }

  /** Reading a data line back under a header, as a spreadsheet would. */
  function ReadBack(columns: seq<string>, cells: seq<string>): map<string, string>
    requires |columns| == |cells|
  {
    if columns == [] then map[]
    else ReadBack(columns[1..], cells[1..])[columns[0] := cells[0]]
  }

  /** Under its own header, a data line reads back as the record it was
      written from. */
  lemma {:induction false} ReadBackCells(columns: seq<string>, rec: map<string, string>)
    requires Distinct(columns)
    requires forall c :: c in columns ==> c in rec
    ensures ReadBack(columns, Cells(columns, rec)) == map c | c in columns :: rec[c]
  {
    if columns != [] {
      var cells := Cells(columns, rec);
      assert Cells(columns[1..], rec) == cells[1..];
      ReadBackCells(columns[1..], rec);
      assert forall c :: c in columns <==> c == columns[0] || c in columns[1..];
    }
  }

  /** A record whose keys are exactly the columns reads back whole. */
  lemma ReadBackRecord(columns: seq<string>, rec: map<string, string>)
    requires Distinct(columns)
    requires forall c :: c in rec <==> c in columns
    ensures ReadBack(columns, Cells(columns, rec)) == rec
  {
    ReadBackCells(columns, rec);
    var restricted := map c | c in columns :: rec[c];
    assert restricted.Keys == rec.Keys;
  }

  /** One line of the CSV file. */
  datatype Line = Header(names: seq<string>) | Row(cells: seq<string>)

  function Headers(lines: seq<Line>): nat {
    if lines == [] then 0 else (if lines[0].Header? then 1 else 0) + Headers(lines[1..])
  }

  function Rows(lines: seq<Line>): nat {
    if lines == [] then 0 else (if lines[0].Row? then 1 else 0) + Rows(lines[1..])
  }

  lemma {:induction false} CountsAppend(a: seq<Line>, b: seq<Line>)
    ensures Headers(a + b) == Headers(a) + Headers(b)
    ensures Rows(a + b) == Rows(a) + Rows(b)
  {
    if a != [] {
      assert (a + b)[0] == a[0];
      assert (a + b)[1..] == a[1..] + b;
      CountsAppend(a[1..], b);
    } else {
      assert a + b == b;
    }
  }

  /** What one run of the page receives: the name typed, the position
      selected, whether the submit button was pressed, what was done with
      each slider and text area, and the clock reading at that moment. */
  datatype Visit = Visit(name: string, position: string, pressed: bool,
                         picks: map<string, Level>, texts: map<string, string>, time: string)

  /** How one run of the page ends. */
  datatype Outcome =
    | AskedToSelect  // no position yet: only the prompt to select one
    | NotSubmitted   // the questions are shown but the button was not pressed
    | NameMissing    // the button was pressed with an empty name
    | Saved          // one row was appended

  /** The page's branches: the prompt without a position, nothing without
      a press, the name error for an empty name, and otherwise a save. */
  function OutcomeOf(v: Visit): (o: Outcome)
    ensures o == AskedToSelect <==> v.position == Unselected
    ensures o == NotSubmitted <==> v.position != Unselected && !v.pressed
    ensures o == NameMissing <==> v.position != Unselected && v.pressed && v.name == ""
    ensures o == Saved <==> v.position != Unselected && v.pressed && v.name != ""
  {
    if v.position == Unselected then AskedToSelect
    else if !v.pressed then NotSubmitted
    else if v.name == "" then NameMissing
    else Saved
  }

  /** The record a visit submits. */
  function Submitted(v: Visit): map<string, string> {
    Record(Collect(v.position, v.picks, v.texts), v.name, v.position, v.time)
  }

  /** The CSV file as the page sees it: whether it exists, and its lines. */
  datatype FileState = FileState(present: bool, lines: seq<Line>)

  /** A file that does not exist holds no lines. */
  predicate Consistent(f: FileState) {
    !f.present ==> f.lines == []
  }

  /** The file after one run of the page. */
  function Apply(f: FileState, v: Visit): (g: FileState)
    ensures OutcomeOf(v) != Saved ==> g == f
    ensures OutcomeOf(v) == Saved ==>
      && g.present
      && |g.lines| == |f.lines| + (if f.present then 1 else 2)
      && g.lines[..|f.lines|] == f.lines
      && (!f.present ==> g.lines[|f.lines|] == Header(Columns(v.position)))
      && g.lines[|g.lines| - 1] == Row(Cells(Columns(v.position), Submitted(v)))
  {
    if OutcomeOf(v) != Saved then f
    else
      var columns := Columns(v.position);
      var row := Row(Cells(columns, Submitted(v)));
      if f.present then FileState(true, f.lines + [row])
      else FileState(true, f.lines + [Header(columns), row])
  }

  /** One run adds a data line exactly when it saves, and a header exactly
      when it saves into a file that did not exist. */
  lemma ApplyCounts(f: FileState, v: Visit)
    requires Consistent(f)
    ensures Consistent(Apply(f, v))
    ensures Rows(Apply(f, v).lines) == Rows(f.lines) + (if OutcomeOf(v) == Saved then 1 else 0)
    ensures Headers(Apply(f, v).lines) ==
      Headers(f.lines) + (if OutcomeOf(v) == Saved && !f.present then 1 else 0)
  {
    if OutcomeOf(v) == Saved {
      var columns := Columns(v.position);
      var row := Row(Cells(columns, Submitted(v)));
      var added := if f.present then [row] else [Header(columns), row];
      assert Apply(f, v).lines == f.lines + added;
      CountsAppend(f.lines, added);
      AddedCounts(columns, row.cells);
    }
  }

  /** The lines one save adds: a data line alone, or a header and a data line. */
  lemma AddedCounts(names: seq<string>, cells: seq<string>)
    ensures Headers([Row(cells)]) == 0 && Rows([Row(cells)]) == 1
    ensures Headers([Header(names), Row(cells)]) == 1 && Rows([Header(names), Row(cells)]) == 1
  {
    assert [Header(names), Row(cells)][1..] == [Row(cells)];
  }

  /** A run changes the file exactly when a position is selected, the
      button is pressed and the name is not empty; with an empty name, or
      without a position, nothing is written. */
  lemma SaveGuard(f: FileState, v: Visit)
    ensures Apply(f, v) != f <==> v.position != Unselected && v.pressed && v.name != ""
    ensures v.name == "" || v.position == Unselected ==> Apply(f, v) == f
  {
    if OutcomeOf(v) == Saved {
      assert |Apply(f, v).lines| > |f.lines|;
    }
  }

  /** The record a visit submits holds the collected answers, unchanged,
      plus the name, the position and the time, and nothing else. */
  lemma SubmittedRecord(v: Visit)
    ensures Submitted(v).Keys == (set k | k in Compose(v.position)) + {NameKey, PositionKey, TimeKey}
    ensures forall k :: k in Compose(v.position) ==> Submitted(v)[k] == Collect(v.position, v.picks, v.texts)[k]
    ensures Submitted(v)[NameKey] == v.name && Submitted(v)[PositionKey] == v.position
    ensures Submitted(v)[TimeKey] == v.time
  {
    MetaKeysAreNotQuestions(v.position, v.picks, v.texts, v.name, v.time);
  }

  /** The submitted record has a value under every column, and no other. */
  lemma ColumnsOfSubmitted(v: Visit)
    ensures forall c :: c in Submitted(v) <==> c in Columns(v.position)
  {
    var ans := Collect(v.position, v.picks, v.texts);
    assert Submitted(v).Keys == ans.Keys + {NameKey, PositionKey, TimeKey};
    ColumnsMembers(v.position);
    forall c
      ensures c in Submitted(v) <==> c in Columns(v.position)
    {
      assert c in MetaKeys <==> c in {NameKey, PositionKey, TimeKey};
    }
  }

  /** The line a save appends reads back, under its own header, as exactly
      the submitted record. */
  lemma SavedRow(f: FileState, v: Visit)
    requires OutcomeOf(v) == Saved
    ensures var g := Apply(f, v);
      && g.lines[|g.lines| - 1].Row?
      && ReadBack(Columns(v.position), g.lines[|g.lines| - 1].cells) == Submitted(v)
  {
    var g := Apply(f, v);
    assert g.lines[|g.lines| - 1] == Row(Cells(Columns(v.position), Submitted(v)));
    SubmittedReadsBack(v);
  }

  lemma SubmittedReadsBack(v: Visit)
    ensures ReadBack(Columns(v.position), Cells(Columns(v.position), Submitted(v))) == Submitted(v)
  {
    ColumnsOfSubmitted(v);
    ReadBackRecord(Columns(v.position), Submitted(v));
  }

  /** The file after a sequence of runs of the page, in order. */
  function Replay(f: FileState, visits: seq<Visit>): FileState
    decreases |visits|
  {
    if visits == [] then f else Replay(Apply(f, visits[0]), visits[1..])
  }

  function SavedCount(visits: seq<Visit>): nat {
    if visits == [] then 0 else (if OutcomeOf(visits[0]) == Saved then 1 else 0) + SavedCount(visits[1..])
  }

  /** Over any sequence of runs, every save adds exactly one data line and
      nothing else adds any; a header is added only by the first save into a
      file that did not exist, and after any save the file exists. */
  lemma {:induction false} ReplayCounts(f: FileState, visits: seq<Visit>)
    requires Consistent(f)
    ensures Consistent(Replay(f, visits))
    ensures Replay(f, visits).present <==> f.present || SavedCount(visits) > 0
    ensures Rows(Replay(f, visits).lines) == Rows(f.lines) + SavedCount(visits)
    ensures Headers(Replay(f, visits).lines) ==
      Headers(f.lines) + (if !f.present && SavedCount(visits) > 0 then 1 else 0)
    decreases |visits|
  {
    if visits != [] {
      ApplyCounts(f, visits[0]);
      ReplayCounts(Apply(f, visits[0]), visits[1..]);
    }
  }

  /** Earlier lines are never rewritten: every run only appends. */
  lemma {:induction false} ReplayAppendsOnly(f: FileState, visits: seq<Visit>)
    ensures |f.lines| <= |Replay(f, visits).lines|
    ensures Replay(f, visits).lines[..|f.lines|] == f.lines
    decreases |visits|
  {
    if visits != [] {
      var g := Apply(f, visits[0]);
      ReplayAppendsOnly(g, visits[1..]);
      assert g.lines[..|f.lines|] == f.lines;
    }
  }

  /** Starting without a file, the header is written at most once, exactly
      when something was saved, and it is the first line of the file. */
  lemma HeaderWrittenOnce(visits: seq<Visit>)
    ensures Headers(Replay(FileState(false, []), visits).lines) == (if SavedCount(visits) > 0 then 1 else 0)
    ensures SavedCount(visits) > 0 ==> Replay(FileState(false, []), visits).lines[0].Header?
  {
    ReplayCounts(FileState(false, []), visits);
    if SavedCount(visits) > 0 {
      FirstLineIsHeader(visits);
    }
  }

  lemma {:induction false} FirstLineIsHeader(visits: seq<Visit>)
    requires SavedCount(visits) > 0
    ensures |Replay(FileState(false, []), visits).lines| > 0
    ensures Replay(FileState(false, []), visits).lines[0].Header?
    decreases |visits|
  {
    var v := visits[0];
    if OutcomeOf(v) == Saved {
      var g := Apply(FileState(false, []), v);
      assert g.lines[0] == Header(Columns(v.position));
      ReplayAppendsOnly(g, visits[1..]);
      assert Replay(FileState(false, []), visits).lines[..|g.lines|] == g.lines;
    } else {
      FirstLineIsHeader(visits[1..]);
    }
  }

  lemma ReplayTwo(f: FileState, first: Visit, second: Visit)
    ensures Replay(f, [first, second]) == Apply(Apply(f, first), second)
  {
    assert [first, second][1..] == [second];
    assert Replay(Apply(f, first), [second]) == Apply(Apply(f, first), second);
  }

  /** Two saves in a row, starting without a file: a header from the first
      save's columns, then the two data lines. */
  lemma TwoSaves(first: Visit, second: Visit)
    requires OutcomeOf(first) == Saved && OutcomeOf(second) == Saved
    ensures Replay(FileState(false, []), [first, second]).lines ==
      [Header(Columns(first.position)),
       Row(Cells(Columns(first.position), Submitted(first))),
       Row(Cells(Columns(second.position), Submitted(second)))]
  {
    ReplayTwo(FileState(false, []), first, second);
  }

  /** The header is taken from the first saved record only, so a later
      record for a position with a different question set is appended under
      a header of a different width: a member's 14 columns, then a staff
      member's 19 cells. */
  lemma MixedPositionsMisalign(first: Visit, second: Visit)
    requires first.position == Member && second.position == Staff
    requires OutcomeOf(first) == Saved && OutcomeOf(second) == Saved
    ensures var lines := Replay(FileState(false, []), [first, second]).lines;
      && |lines| == 3
      && lines[0].Header? && |lines[0].names| == 14
      && lines[2].Row? && |lines[2].cells| == 19
  {
    TwoSaves(first, second);
    ComposeMember();
    ComposeStaff();
  }

  lemma StaffLeaderColumns()
    ensures |Columns(Staff)| == 19 && |Columns(Leader)| == 19
    ensures Columns(Staff) != Columns(Leader)
  {
    ComposeStaff();
    ComposeLeader();
    assert Columns(Staff)[9] == Compose(Staff)[9] == "Staff_D1";
    assert Columns(Leader)[9] == Compose(Leader)[9] == "리더_F1";
  }

  /** Two positions with question sets of the same size still write
      different column names: a leader's 19 cells land under a staff
      member's header of the same width. */
  lemma StaffThenLeaderRenamed(first: Visit, second: Visit)
    requires first.position == Staff && second.position == Leader
    requires OutcomeOf(first) == Saved && OutcomeOf(second) == Saved
    ensures var lines := Replay(FileState(false, []), [first, second]).lines;
      && |lines| == 3
      && lines[0] == Header(Columns(Staff))
      && |lines[0].names| == 19 && lines[2].Row? && |lines[2].cells| == 19
      && lines[0].names != Columns(Leader)
  {
    TwoSaves(first, second);
    StaffLeaderColumns();
  }

  /** The survey file and the page's view of it. */
  class Store {
    var fileExists: bool
    var lines: seq<Line>

    function State(): FileState
      reads this
    {
      FileState(fileExists, lines)
    }

    constructor (existed: bool, prior: seq<Line>)
      requires !existed ==> prior == []
      ensures State() == FileState(existed, prior) && Consistent(State())
    {
      fileExists := existed;
      lines := prior;
    }

    /** One run of the page: collect the answers of the selected position,
        and on a press of the submit button with a non-empty name enrich
        them and append them as one line, with a header if the file did
        not exist yet. */
    method Run(v: Visit) returns (outcome: Outcome)
      requires Consistent(State())
      modifies this
      ensures outcome == OutcomeOf(v)
      ensures State() == Apply(old(State()), v)
      ensures Consistent(State())
      ensures outcome != Saved ==> fileExists == old(fileExists) && lines == old(lines)
      ensures outcome == Saved ==> fileExists && Rows(lines) == Rows(old(lines)) + 1
      ensures Headers(lines) == Headers(old(lines)) + (if outcome == Saved && !old(fileExists) then 1 else 0)
    {
      ApplyCounts(State(), v);
      if v.position == Unselected {
        return AskedToSelect;
      }
      var ans := Collect(v.position, v.picks, v.texts);
      if !v.pressed {
        return NotSubmitted;
      }
      if v.name == "" {
        return NameMissing;
      }
      ans := Record(ans, v.name, v.position, v.time);
      var columns := Compose(v.position) + MetaKeys;
      var row := Cells(columns, ans);
      if fileExists {
        lines := lines + [Row(row)];
      } else {
        lines := lines + [Header(columns), Row(row)];
      }
      fileExists := true;
      outcome := Saved;
    }
  }
}
