/** The values a job card derives from its job row: the salary label, the description
    preview, the posted-date label and the metadata list, and the card's `saved` flag, which
    follows the answer of the save request. */
module JobCard {
  import opened Wrappers
  import opened JsValues
  import opened Text

  /** The columns of a job row the card reads; `description` is `None` when it is `null` or
      `undefined`. */
  datatype CardJob = CardJob(
    salaryRange: JsValue,
    salary: JsValue,
    compensation: JsValue,
    description: Option<string>,
    employmentType: JsValue,
    createdAt: JsValue)

  /** `r` is the first value of `vs` that is neither `null` nor `undefined`, or the last value
      when all of them are: what a chain `vs[0] ?? vs[1] ?? ...` yields. */
  predicate IsFirstPresent(vs: seq<JsValue>, r: JsValue)
    requires |vs| >= 1
  {
    || (exists i :: 0 <= i < |vs| && !Nullish(vs[i]) && r == vs[i] && forall j :: 0 <= j < i ==> Nullish(vs[j]))
    || ((forall j :: 0 <= j < |vs| ==> Nullish(vs[j])) && r == vs[|vs| - 1])
  }

  /** The salary label: the first of the salary range, the salary and the compensation that
      is present, by nullish coalescing. */
  function SalaryLabel(job: CardJob): (r: JsValue)
    ensures IsFirstPresent([job.salaryRange, job.salary, job.compensation], r)
    ensures Nullish(r) <==> Nullish(job.salaryRange) && Nullish(job.salary) && Nullish(job.compensation)
  {
    var r := Coalesce(Coalesce(job.salaryRange, job.salary), job.compensation);
    var vs := [job.salaryRange, job.salary, job.compensation];
    if !Nullish(vs[0]) then
      assert IsFirstPresent(vs, r) by { assert r == vs[0]; }
      r
    else if !Nullish(vs[1]) then
      assert IsFirstPresent(vs, r) by { assert r == vs[1]; }
      r
    else if !Nullish(vs[2]) then
      assert IsFirstPresent(vs, r) by { assert r == vs[2]; }
      r
    else
      r
  }

  /** A present but falsy salary range, such as an empty string, hides every later salary
      column, so the card shows no salary entry even when `salary` is set. */
  lemma FalsySalaryRangeHidesSalary(job: CardJob)
    requires !Nullish(job.salaryRange) && !Truthy(job.salaryRange)
    ensures SalaryLabel(job) == job.salaryRange && !Truthy(SalaryLabel(job))
  {
  }

  const DescriptionFallback: string := "Tap through for full role details."

  /** The description preview: the text before the first full stop. The fallback only replaces a missing description; a split
      always has a first piece, so an empty description previews as the empty string. */
  function DescriptionPreview(description: Option<string>): (r: string)
    ensures description.None? ==> r == DescriptionFallback
    ensures description.Some? ==> '.' !in r && StartsWith(description.value, r)
    ensures description.Some? && |r| < |description.value| ==> description.value[|r|] == '.'
    ensures description.Some? && '.' !in description.value ==> r == description.value
  {
    if description.None? then DescriptionFallback else FirstSegment(description.value, '.')
  }

  /** The posted label: `localeDate` (what `toLocaleDateString` renders) when `created_at` is
      truthy, "Recently added" otherwise. */
  function PostedLabel(createdAt: JsValue, localeDate: string): (r: string)
    ensures !Truthy(createdAt) ==> r == "Recently added"
    ensures Truthy(createdAt) ==> r == localeDate
  {
    if Truthy(createdAt) then localeDate else "Recently added"
  }

  datatype Icon = Briefcase | DollarSign | Clock

  datatype MetaItem = MetaItem(icon: Icon, caption: JsValue)

  /** The metadata list: the employment type, the salary when its label is truthy, and the
      posted date. The entries are objects and so truthy; the truthiness filter drops only a
      falsy salary label. */
  function Metadata(job: CardJob, localeDate: string): (r: seq<MetaItem>)
    ensures 2 <= |r| <= 3
    ensures r[0] == MetaItem(Briefcase, Coalesce(job.employmentType, Str("Flexible")))
    ensures r[|r| - 1] == MetaItem(Clock, Str(PostedLabel(job.createdAt, localeDate)))
    ensures |r| == 3 <==> Truthy(SalaryLabel(job))
    ensures |r| == 3 ==> r[1] == MetaItem(DollarSign, SalaryLabel(job))
    ensures (exists i :: 0 <= i < |r| && r[i].icon == DollarSign) <==> Truthy(SalaryLabel(job))
  {
    var employment := MetaItem(Briefcase, Coalesce(job.employmentType, Str("Flexible")));
    var salary := SalaryLabel(job);
    var posted := MetaItem(Clock, Str(PostedLabel(job.createdAt, localeDate)));
    if Truthy(salary) then
      var r := [employment, MetaItem(DollarSign, salary), posted];
      assert r[1].icon == DollarSign;
      r
    else
      [employment, posted]
  }

  /** What the save request answered: nothing yet (`undefined`), `null`, or the saved rows. */
  datatype SaveResponse = NotFetched | NullData | Rows(count: nat)

  /** The value `saved` takes after the effect runs on `response`. */
  function SavedAfter(saved: bool, response: SaveResponse): (r: bool)
    ensures response.NotFetched? ==> r == saved
    ensures response.NullData? ==> !r
    ensures response.Rows? ==> (r <==> response.count > 0)
  {
    match response
    case NotFetched => saved
    case NullData => false
    case Rows(count) => count > 0
  }

  /** The effect is idempotent: running it again on the same response changes nothing. */
  lemma SavedAfterIdempotent(saved: bool, response: SaveResponse)
    ensures SavedAfter(SavedAfter(saved, response), response) == SavedAfter(saved, response)
  {
  }

  /** The card's `saved` state. */
  class SavedFlag {
    var saved: bool

    /** `useState(savedInit)`. */
    constructor(savedInit: bool)
      ensures saved == savedInit
    {
      saved := savedInit;
    }

    /** The effect that runs when the save request answers: unless the answer is still
        `undefined`, `saved` becomes whether rows came back. */
    method OnSavedJobChange(response: SaveResponse)
      modifies this
      ensures saved == SavedAfter(old(saved), response)
      ensures response.NotFetched? ==> saved == old(saved)
      ensures response.NullData? ==> !saved
      ensures response.Rows? ==> (saved <==> response.count > 0)
    {
      if !response.NotFetched? {
        saved := response.Rows? && response.count > 0;
      }
    }
  }
}
