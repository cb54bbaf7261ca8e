/**
 * The job viewer's catalog: all loaded records, the filtered view the user
 * pages through, and the cursor into that view.
 */
module Catalog {
  import opened Wrappers
  import opened Text
  import opened Jobs
  import opened View

  /** What the file dialog and the JSON parser hand to the load action. */
  datatype Parsed =
    | Cancelled                    // the dialog returned no path
    | Unreadable                   // the chosen file could not be opened or read
    | Malformed                    // the file is not valid JSON
    | NotAList                     // valid JSON whose top-level value is not an array
    | AList(records: seq<Record>)  // a JSON array of records

  datatype LoadError = ReadFailed | InvalidJson | NotAnArray | EmptyArray

  datatype LoadOutcome = NoFile | Loaded(count: nat) | Failed(error: LoadError)

  /** The cursor is -1 exactly when the view is empty, otherwise a valid position. */
  predicate CursorValid(index: int, count: nat) {
    -1 <= index < count && (index == -1 <==> count == 0)
  }

  /** The cursor after "Next": one step forward, stopping at the last record. */
  function NextIndex(index: int, count: nat): (r: int)
    ensures r == index || r == index + 1
    ensures r == index + 1 <==> index < count - 1
    ensures CursorValid(index, count) ==> CursorValid(r, count)
  {
    if index < count - 1 then index + 1 else index
  }

  /** The cursor after "Previous": one step back, stopping at the first record. */
  function PrevIndex(index: int): (r: int)
    ensures r == index || r == index - 1
    ensures r == index - 1 <==> index > 0
    ensures forall count: nat :: CursorValid(index, count) ==> CursorValid(r, count)
  {
    if index > 0 then index - 1 else index
  }

  /** The cursor after pressing "Next" `k` times. */
  function NextTimes(index: int, count: nat, k: nat): int
    decreases k
  {
    if k == 0 then index else NextTimes(NextIndex(index, count), count, k - 1)
  }

  /** The cursor after pressing "Previous" `k` times. */
  function PrevTimes(index: int, k: nat): int
    decreases k
  {
    if k == 0 then index else PrevTimes(PrevIndex(index), k - 1)
  }

  function Min(a: int, b: int): int { if a <= b then a else b }
  function Max(a: int, b: int): int { if a >= b then a else b }

  /**
   * Paging forward never wraps around: `k` presses of "Next" from a valid
   * position reach `index + k`, or the last record and then stay there.
   */
  lemma {:induction false} NextTimesClamps(index: int, count: nat, k: nat)
    requires 0 <= index < count
    ensures NextTimes(index, count, k) == Min(index + k, count - 1)
    decreases k
  {
    if k > 0 {
      NextTimesClamps(NextIndex(index, count), count, k - 1);
    }
  }

  /**
   * Paging back never wraps around: `k` presses of "Previous" reach
   * `index - k`, or the first record and then stay there.
   */
  lemma {:induction false} PrevTimesClamps(index: int, k: nat)
    requires 0 <= index
    ensures PrevTimes(index, k) == Max(index - k, 0)
    decreases k
  {
    if k > 0 {
      PrevTimesClamps(PrevIndex(index), k - 1);
    }
  }

  /**
   * With navigation enabled, each button is enabled exactly when pressing
   * it would move the cursor.
   */
  lemma ButtonsMatchMoves(index: int, count: nat)
    requires CursorValid(index, count)
    ensures Navigation(true, index, count).nextEnabled <==> NextIndex(index, count) != index
    ensures Navigation(true, index, count).prevEnabled <==> PrevIndex(index) != index
  {
  }

  /**
   * Filtering first sets the buttons with navigation enabled only for a
   * non-empty view, then the display refresh sets them with navigation
   * enabled; on a valid cursor both give the same buttons, and the same
   * as an empty view's when nothing matched.
   */
  lemma FilterButtonsAgree(index: int, count: nat)
    requires CursorValid(index, count)
    ensures Navigation(count > 0, index, count) == Navigation(true, index, count)
    ensures count == 0 ==> Navigation(true, index, count) == NavButtons(false, false)
  {
  }

  /** The viewer's catalog state. */
  class JobViewer {
    var jobData: seq<Record>
    var filteredData: seq<Record>
    var currentIndex: int

    ghost predicate Valid()
      reads this
    {
      CursorValid(currentIndex, |filteredData|) && Subsequence(filteredData, jobData)
    }

    /** At start-up nothing is loaded and the cursor is on no record. */
    constructor ()
      ensures Valid()
      ensures jobData == [] && filteredData == [] && currentIndex == -1
    {
      jobData := [];
      filteredData := [];
      currentIndex := -1;
    }

    /**
     * Installs a parsed JSON value. Only a non-empty array is accepted; it
     * replaces all records and the view, and puts the cursor on the first
     * record. Anything else leaves the catalog as it was.
     */
    method Load(input: Parsed) returns (outcome: LoadOutcome)
      requires Valid()
      modifies this
      ensures Valid()
      ensures input == Cancelled ==> outcome == NoFile
      ensures input == Unreadable ==> outcome == Failed(ReadFailed)
      ensures input == Malformed ==> outcome == Failed(InvalidJson)
      ensures input == NotAList ==> outcome == Failed(NotAnArray)
      ensures input == AList([]) ==> outcome == Failed(EmptyArray)
      ensures input.AList? && input.records != [] ==>
        && outcome == Loaded(|input.records|)
        && jobData == input.records && filteredData == input.records && currentIndex == 0
      ensures !outcome.Loaded? ==>
        jobData == old(jobData) && filteredData == old(filteredData) && currentIndex == old(currentIndex)
    {
      match input
      case Cancelled =>
        outcome := NoFile;
      case Unreadable =>
        outcome := Failed(ReadFailed);
      case Malformed =>
        outcome := Failed(InvalidJson);
      case NotAList =>
        outcome := Failed(NotAnArray);
      case AList(records) =>
        if records == [] {
          outcome := Failed(EmptyArray);
        } else {
          jobData := records;
          filteredData := records;
          currentIndex := 0;
          SubsequenceReflexive(records);
          outcome := Loaded(|records|);
        }
    }

    /**
     * Replaces the view by the records matching `query` case-insensitively
     * (all records for an empty query) and puts the cursor on the first one.
     */
    method ApplyFilter(query: string)
      requires Valid()
      modifies this`filteredData, this`currentIndex
      ensures Valid()
      ensures jobData == old(jobData)
      ensures filteredData == Filter(jobData, Lower(query))
      ensures currentIndex == if filteredData == [] then -1 else 0
    {
      var searchText := Lower(query);
      if searchText == [] {
        FilterEmptyText(jobData);
        filteredData := jobData;
      } else {
        filteredData := Filter(jobData, searchText);
      }
      FilterIsSubsequence(jobData, searchText);
      currentIndex := if |filteredData| > 0 then 0 else -1;
    }

    /** "Next": moves the cursor forward unless it is on the last record. */
    method NextJob()
      requires Valid()
      modifies this`currentIndex
      ensures Valid()
      ensures currentIndex == NextIndex(old(currentIndex), |filteredData|)
    {
      if currentIndex < |filteredData| - 1 {
        currentIndex := currentIndex + 1;
      }
    }

    /** "Previous": moves the cursor back unless it is on the first record. */
    method PrevJob()
      requires Valid()
      modifies this`currentIndex
      ensures Valid()
      ensures currentIndex == PrevIndex(old(currentIndex))
    {
      if currentIndex > 0 {
        currentIndex := currentIndex - 1;
      }
    }

    /** "Apply Now": the URL to hand to the operating system, if any. */
    method OpenJobLink() returns (url: Option<string>)
      ensures url == LinkToOpen(filteredData, currentIndex)
    {
      url := LinkToOpen(filteredData, currentIndex);
    }
  }

  // Helpers for the walkthrough below: they let the verifier rule out a
  // substring on concrete strings without unfolding the search step by step.

  /** A needle longer than the text is never found. */
  lemma {:induction false} LongerNeverContained(hay: string, needle: string)
    requires |hay| < |needle|
    ensures !Contains(hay, needle)
    decreases |hay|
  {
    if hay != [] {
      LongerNeverContained(hay[1..], needle);
    }
  }

  /** A non-empty needle whose first character the text lacks is never found. */
  lemma FirstCharAbsent(hay: string, needle: string)
    requires needle != []
    requires forall i :: 0 <= i < |hay| ==> hay[i] != needle[0]
    ensures !Contains(hay, needle)
  {
    forall i: nat
      ensures !OccursAt(hay, needle, i)
    {
      if i + |needle| <= |hay| {
        assert hay[i..i + |needle|][0] == hay[i];
      }
    }
    ContainsIff(hay, needle);
  }

  const Engineer: Record := map[TitleKey := "Engineer", CompanyKey := "Acme", DescriptionKey := "Build things",
                                SalaryKey := "$100k", ApplyKey := "http://x"]
  const Cook: Record := map[TitleKey := "Cook", CompanyKey := "Bistro", DescriptionKey := "Cook food"]

  lemma CookMatches()
    ensures Matches(Cook, Lower("Cook"))
  {
    assert Lower("Cook") == "cook";
    assert Lower(Field(Cook, TitleKey)) == "cook";
  }

  lemma EngineerDoesNotMatchCook()
    ensures !Matches(Engineer, Lower("Cook"))
  {
    assert Lower("Cook") == "cook";
    EngineerFieldLacksCook(TitleKey);
    EngineerFieldLacksCook(CompanyKey);
    EngineerFieldLacksCook(DescriptionKey);
    EngineerFieldLacksCook(SalaryKey);
  }

  lemma EngineerFieldLacksCook(key: string)
    requires key in {TitleKey, CompanyKey, DescriptionKey, SalaryKey}
    ensures !Contains(Lower(Field(Engineer, key)), "cook")
  {
    if key == TitleKey {
      assert Lower(Field(Engineer, key)) == "engineer";
      FirstCharAbsent("engineer", "cook");
    } else if key == CompanyKey {
      assert Lower(Field(Engineer, key)) == "acme";
      assert "acme"[..4][0] != "cook"[0];
      assert "acme"[1..] == "cme";
      LongerNeverContained("cme", "cook");
    } else if key == DescriptionKey {
      assert Lower(Field(Engineer, key)) == "build things";
      FirstCharAbsent("build things", "cook");
    } else {
      assert Lower(Field(Engineer, key)) == "$100k";
      FirstCharAbsent("$100k", "cook");
    }
  }

  /**
   * Two records, one of them a cook's job: loading shows the first, the
   * query "Cook" narrows the view to the second, "Next" cannot move, and
   * the empty query brings both back.
   */
  method Walkthrough()
  {
    var viewer := new JobViewer();
    var outcome := viewer.Load(AList([Engineer, Cook]));
    assert outcome == Loaded(2) && viewer.currentIndex == 0;
    assert Render(viewer.filteredData, viewer.currentIndex).value.title == "Engineer";

    CookMatches();
    EngineerDoesNotMatchCook();
    viewer.ApplyFilter("Cook");
    assert viewer.filteredData == [Cook] && viewer.currentIndex == 0;
    viewer.NextJob();
    assert viewer.currentIndex == 0;

    viewer.ApplyFilter("");
    assert viewer.filteredData == [Engineer, Cook] && viewer.currentIndex == 0;
  }
}
