/**
 * The values the viewer derives from its state for display: the texts and
 * visibility set by `update_display`, the button states set by
 * `toggle_navigation`, and the URL `open_job_link` would open.
 */
module View {
  import opened Wrappers
  import opened Jobs

  /** Key tested for the "Apply Now" button's visibility. */
  const ApplyKey := "Link"
  /** Key read when the "Apply Now" button is clicked (lower-case, unlike `ApplyKey`). */
  const OpenKey := "link"

  const NoTitle := "No title"
  const NoCompany := "Not specified"
  const NoDescription := "No description available"

  /** What one record looks like on screen. */
  datatype Display = Display(
    title: string,
    company: string,
    salary: Option<string>,   // the salary label's text when it is shown; None hides it
    description: string,
    applyVisible: bool,
    progressMax: nat,
    progressValue: int)

  predicate HasSalary(job: Record) {
    SalaryKey in job && job[SalaryKey] != ""
  }

  /**
   * The display of the record under the cursor, or None when there is
   * nothing to show and the widgets keep what they showed before.
   */
  function Render(filtered: seq<Record>, index: int): (r: Option<Display>)
    requires index < |filtered|
    ensures r.None? <==> filtered == [] || index < 0
    ensures r.Some? ==> (r.value.salary.Some? <==> HasSalary(filtered[index]))
    ensures r.Some? ==> (r.value.applyVisible <==> ApplyKey in filtered[index])
    ensures r.Some? ==> r.value.progressMax == |filtered| && r.value.progressValue == index + 1
    ensures r.Some? ==> 1 <= r.value.progressValue <= r.value.progressMax
  {
    if filtered == [] || index < 0 then None
    else
      var job := filtered[index];
      Some(Display(
        title := if TitleKey in job then job[TitleKey] else NoTitle,
        company := "Company: " + (if CompanyKey in job then job[CompanyKey] else NoCompany),
        salary := if HasSalary(job) then Some("SalaryOrBudgetOffered: " + job[SalaryKey]) else None,
        description := if DescriptionKey in job then job[DescriptionKey] else NoDescription,
        applyVisible := ApplyKey in job,
        progressMax := |filtered|,
        progressValue := index + 1))
  }

  /**
   * Defaults apply only to absent fields: a present field is shown as it
   * is, even when empty.
   */
  lemma DisplayDefaults(filtered: seq<Record>, index: int)
    requires 0 <= index < |filtered|
    ensures var d, job := Render(filtered, index).value, filtered[index];
      && (TitleKey !in job ==> d.title == NoTitle)
      && (TitleKey in job ==> d.title == job[TitleKey])
      && (CompanyKey !in job ==> d.company == "Company: " + NoCompany)
      && (CompanyKey in job ==> d.company == "Company: " + job[CompanyKey])
      && (DescriptionKey !in job ==> d.description == NoDescription)
      && (DescriptionKey in job ==> d.description == job[DescriptionKey])
      && (d.salary.Some? ==> d.salary.value == "SalaryOrBudgetOffered: " + job[SalaryKey])
  {
  }

  /** Enabled states of the Previous and Next buttons. */
  datatype NavButtons = NavButtons(prevEnabled: bool, nextEnabled: bool)

  /** `toggle_navigation(enabled)` for a cursor `index` over `count` visible records. */
  function Navigation(enabled: bool, index: int, count: nat): (b: NavButtons)
    ensures !enabled ==> b == NavButtons(false, false)
    ensures b.prevEnabled ==> 0 < index
    ensures b.nextEnabled ==> index + 1 < count
  {
    NavButtons(enabled && index > 0, enabled && index < count - 1)
  }

  /**
   * The URL the "Apply Now" button opens, if any: the cursor must be in range
   * and the record must hold a non-empty `link` field.
   */
  function LinkToOpen(filtered: seq<Record>, index: int): (url: Option<string>)
    ensures url.Some? <==> 0 <= index < |filtered| && OpenKey in filtered[index] && filtered[index][OpenKey] != ""
    ensures url.Some? ==> url.value == filtered[index][OpenKey]
  {
    if filtered != [] && 0 <= index < |filtered| then
      var job := filtered[index];
      if OpenKey in job && job[OpenKey] != "" then Some(job[OpenKey]) else None
    else None
  }

  /**
   * The button tests `Link` but the click handler reads `link`: a record
   * with only `Link` shows the button, yet clicking it opens nothing.
   */
  lemma ApplyButtonOpensNothing()
    ensures var job := map[ApplyKey := "http://x"];
      && Render([job], 0).value.applyVisible
      && LinkToOpen([job], 0) == None
  {
    var job := map[ApplyKey := "http://x"];
    assert OpenKey !in job;
  }

  /** Visibility of the two widgets whose visibility depends on the record. */
  datatype Visibility = Visibility(salaryLabel: bool, applyButton: bool)

  /**
   * Visibility after a successful load as written: `update_display` sets it
   * from the first record, then every detail widget is made visible.
   */
  function VisibilityAfterLoadAsWritten(records: seq<Record>): (v: Visibility)
    requires records != []
    ensures v == Visibility(true, true)
  {
    var d := Render(records, 0).value;
    var rendered := Visibility(d.salary.Some?, d.applyVisible);
    rendered.(salaryLabel := true, applyButton := true)
  }

  /** A first record with no salary and no link still shows both widgets. */
  lemma AfterLoadShowsAbsentFields()
    ensures var job := map[TitleKey := "Cook"];
      && !HasSalary(job) && ApplyKey !in job
      && VisibilityAfterLoadAsWritten([job]) == Visibility(true, true)
  {
    var job := map[TitleKey := "Cook"];
    assert SalaryKey !in job && ApplyKey !in job;
  }

  /**
   * Visibility after a successful load as intended: the same as on every
   * later display of the first record.
   */
  function VisibilityAfterLoad(records: seq<Record>): (v: Visibility)
    requires records != []
    ensures v.salaryLabel <==> HasSalary(records[0])
    ensures v.applyButton <==> ApplyKey in records[0]
  {
    var d := Render(records, 0).value;
    Visibility(d.salary.Some?, d.applyVisible)
  }
}
