/** The profile page's editing logic: the skill list, the four record lists (academic
    records, certifications, experiences and portfolio items), the technologies field, the
    upload handlers and saving. The pure list transforms are functions; the component's state
    is the class `ProfileEditor`, with one method per handler. */
module ProfilePage {
  import opened Wrappers
  import opened Sequences
  import opened Text
  import opened JsValues
  import ApiProfile

  // ---------------------------------------------------------------------------------------
  // Records
  // ---------------------------------------------------------------------------------------

  /** A plain object held in one of the record lists. */
  type Record = map<string, JsValue>

  const IdField: string := "id"

  /** `record.id`: `undefined` when the record has none. */
  function IdOf(record: Record): JsValue
  {
    if IdField in record then record[IdField] else Undefined
  }

  /** `after` is `{ ...before, [field]: value }`. */
  predicate SetsField(before: Record, after: Record, field: string, value: JsValue)
  {
    && after.Keys == before.Keys + {field}
    && after[field] == value
    && forall k :: k in before && k != field ==> after[k] == before[k]
  }

  /** The update handlers: every record whose id is `id` gets `field` set to `value`; the
      others are left as they are. */
  function UpdateById(records: seq<Record>, id: JsValue, field: string, value: JsValue): (r: seq<Record>)
    ensures |r| == |records|
    ensures forall i :: 0 <= i < |records| && IdOf(records[i]) != id ==> r[i] == records[i]
    ensures forall i :: 0 <= i < |records| && IdOf(records[i]) == id ==> SetsField(records[i], r[i], field, value)
    ensures field != IdField ==> forall i :: 0 <= i < |records| ==> IdOf(r[i]) == IdOf(records[i])
  {
    seq(|records|, i requires 0 <= i < |records| =>
      if IdOf(records[i]) == id then records[i][field := value] else records[i])
  }

  /** Keeps the records whose id is not `id`. */
  function NotId(id: JsValue): Record -> bool
  {
    r => IdOf(r) != id
  }

  /** The remove handlers: the records whose id is not `id`, in their order. */
  function RemoveById(records: seq<Record>, id: JsValue): (r: seq<Record>)
    ensures |r| <= |records|
    ensures forall i :: 0 <= i < |r| ==> IdOf(r[i]) != id && r[i] in records
    ensures forall i :: 0 <= i < |records| && IdOf(records[i]) != id ==> records[i] in r
    ensures Subsequence(r, records)
  {
    FilterIsSubsequence(records, NotId(id));
    Filter(records, NotId(id))
  }

  /** Removing an id keeps every other record as often as it occurred and drops every
      record with that id. */
  lemma RemoveByIdCounts(records: seq<Record>, id: JsValue)
    ensures forall x :: multiset(RemoveById(records, id))[x] == if IdOf(x) != id then multiset(records)[x] else 0
  {
    FilterMultiset(records, NotId(id));
  }

  /** Updating a field other than the id, then removing that id, is removing it. */
  lemma {:induction false} UpdateThenRemove(records: seq<Record>, id: JsValue, field: string, value: JsValue)
    requires field != IdField
    ensures RemoveById(UpdateById(records, id, field, value), id) == RemoveById(records, id)
  {
    if records != [] {
      var updated := UpdateById(records, id, field, value);
      assert updated[1..] == UpdateById(records[1..], id, field, value);
      UpdateThenRemove(records[1..], id, field, value);
    }
  }

  /** The first record whose id is `id`, as the upload handlers look it up. */
  function FindById(records: seq<Record>, id: JsValue): (r: Option<Record>)
    ensures r.None? <==> forall i :: 0 <= i < |records| ==> IdOf(records[i]) != id
    ensures r.Some? ==> exists i :: 0 <= i < |records| && records[i] == r.value && IdOf(records[i]) == id
                                   && forall j :: 0 <= j < i ==> IdOf(records[j]) != id
  {
    if records == [] then None
    else if IdOf(records[0]) == id then Some(records[0])
    else
      var r := FindById(records[1..], id);
      if r.Some? then
        ghost var i :| 0 <= i < |records| - 1 && records[1..][i] == r.value && IdOf(records[1..][i]) == id
                       && forall j :: 0 <= j < i ==> IdOf(records[1..][j]) != id;
        assert records[i + 1] == r.value;
        r
      else r
  }

  /** `record[field] || fallback`, for a field that holds text. */
  function TextOr(record: Record, field: string, fallback: string): (r: string)
    ensures field in record && record[field].Str? && record[field].s != "" ==> r == record[field].s
    ensures !(field in record && record[field].Str? && record[field].s != "") ==> r == fallback
    ensures fallback != "" ==> r != ""
  {
    if field in record && record[field].Str? && record[field].s != "" then record[field].s else fallback
  }

  // ---------------------------------------------------------------------------------------
  // Blank records appended by the "add" buttons; `now` is `Date.now()`
  // ---------------------------------------------------------------------------------------

  /** A fresh record: the given id, the empty string in every text field, an empty list in
      every list field, `false` in every flag field, and no other field. */
  predicate IsFreshRecord(r: Record, now: int, text: set<string>, lists: set<string>, flags: set<string>)
  {
    && r.Keys == text + lists + flags + {IdField}
    && IdOf(r) == Num(now)
    && (forall k :: k in text ==> k in r && r[k] == Str(""))
    && (forall k :: k in lists ==> k in r && r[k] == Arr([]))
    && (forall k :: k in flags ==> k in r && r[k] == Bool(false))
  }

  const AcademicText: set<string> :=
    {"institution", "degree", "field_of_study", "start_year", "end_year", "grade", "description"}

  function BlankAcademic(now: int): (r: Record)
    ensures IsFreshRecord(r, now, AcademicText, {}, {})
  {
    map[IdField := Num(now), "institution" := Str(""), "degree" := Str(""), "field_of_study" := Str(""),
        "start_year" := Str(""), "end_year" := Str(""), "grade" := Str(""), "description" := Str("")]
  }

  const CertificationText: set<string> :=
    {"name", "issuing_organization", "issue_date", "expiry_date", "credential_id", "credential_url", "file_url"}

  function BlankCertification(now: int): (r: Record)
    ensures IsFreshRecord(r, now, CertificationText, {}, {})
  {
    map[IdField := Num(now), "name" := Str(""), "issuing_organization" := Str(""), "issue_date" := Str(""),
        "expiry_date" := Str(""), "credential_id" := Str(""), "credential_url" := Str(""), "file_url" := Str("")]
  }

  const ExperienceText: set<string> :=
    {"company_name", "company_logo_url", "job_title", "employment_type", "location", "start_date",
     "end_date", "description"}

  function BlankExperience(now: int): (r: Record)
    ensures IsFreshRecord(r, now, ExperienceText, {"skills_used"}, {"is_current"})
  {
    map[IdField := Num(now), "company_name" := Str(""), "company_logo_url" := Str(""), "job_title" := Str(""),
        "employment_type" := Str(""), "location" := Str(""), "start_date" := Str(""), "end_date" := Str(""),
        "is_current" := Bool(false), "description" := Str(""), "skills_used" := Arr([])]
  }

  const PortfolioText: set<string> :=
    {"title", "description", "project_url", "image_url", "start_date", "end_date"}

  function BlankPortfolioItem(now: int): (r: Record)
    ensures IsFreshRecord(r, now, PortfolioText, {"technologies"}, {})
  {
    map[IdField := Num(now), "title" := Str(""), "description" := Str(""), "project_url" := Str(""),
        "image_url" := Str(""), "technologies" := Arr([]), "start_date" := Str(""), "end_date" := Str("")]
  }

  /** A record added under an id no other record has is removed again by that id, and
      nothing else is. */
  lemma {:induction false} AddThenRemove(records: seq<Record>, added: Record)
    requires forall i :: 0 <= i < |records| ==> IdOf(records[i]) != IdOf(added)
    ensures RemoveById(records + [added], IdOf(added)) == records
  {
    var id := IdOf(added);
    FilterConcat(records, [added], NotId(id));
    FilterKeepsAll(records, NotId(id));
    assert Filter([added], NotId(id)) == [];
  }

  /** Two records added in the same millisecond share an id: editing or removing one of
      them edits or removes both. */
  lemma RepeatedTimestampSharesId(records: seq<Record>, now: int, field: string, value: JsValue)
    requires |records| > 0 && IdOf(records[|records| - 1]) == Num(now)
    ensures var after := records + [BlankAcademic(now)];
            && SetsField(records[|records| - 1], UpdateById(after, Num(now), field, value)[|records| - 1], field, value)
            && SetsField(BlankAcademic(now), UpdateById(after, Num(now), field, value)[|records|], field, value)
            && RemoveById(after, Num(now)) == RemoveById(records[..|records| - 1], Num(now))
  {
    var n := |records|;
    var after := records + [BlankAcademic(now)];
    assert after == records[..n - 1] + [records[n - 1], BlankAcademic(now)];
    FilterConcat(records[..n - 1], [records[n - 1], BlankAcademic(now)], NotId(Num(now)));
    assert Filter([records[n - 1], BlankAcademic(now)], NotId(Num(now))) == [];
  }

  // ---------------------------------------------------------------------------------------
  // Skills
  // ---------------------------------------------------------------------------------------

  /** The condition of `addSkill`: the trimmed entry is non-empty and not listed yet. */
  predicate SkillAccepted(skills: seq<string>, entry: string)
  {
    Trim(entry) != "" && Trim(entry) !in skills
  }

  /** The skill list `addSkill` leaves: the trimmed entry appended when accepted. */
  function WithSkill(skills: seq<string>, entry: string): (r: seq<string>)
    ensures SkillAccepted(skills, entry) ==> |r| == |skills| + 1 && r[|skills|] == Trim(entry)
    ensures !SkillAccepted(skills, entry) ==> r == skills
    ensures |r| >= |skills| && r[..|skills|] == skills
    ensures Trim(entry) != "" ==> Trim(entry) in r
    ensures NoDuplicates(skills) ==> NoDuplicates(r)
  {
    if SkillAccepted(skills, entry) then skills + [Trim(entry)] else skills
  }

  /** Keeps the skills other than `skill`. */
  function Other(skill: string): string -> bool
  {
    s => s != skill
  }

  /** The skill list `removeSkill` leaves: every entry other than `skill`, in order. */
  function WithoutSkill(skills: seq<string>, skill: string): (r: seq<string>)
    ensures skill !in r
    ensures forall i :: 0 <= i < |skills| && skills[i] != skill ==> skills[i] in r
    ensures forall i :: 0 <= i < |r| ==> r[i] in skills
    ensures Subsequence(r, skills)
    ensures NoDuplicates(skills) ==> NoDuplicates(r)
  {
    FilterIsSubsequence(skills, Other(skill));
    if NoDuplicates(skills) then
      FilterNoDuplicates(skills, Other(skill));
      Filter(skills, Other(skill))
    else
      Filter(skills, Other(skill))
  }

  /** Removing a skill drops every occurrence of it and keeps the others as often as they were. */
  lemma WithoutSkillCounts(skills: seq<string>, skill: string)
    ensures forall x :: multiset(WithoutSkill(skills, skill))[x] == if x != skill then multiset(skills)[x] else 0
  {
    FilterMultiset(skills, Other(skill));
  }

  /** Removing the skill just added restores the list. */
  lemma AddThenRemoveSkill(skills: seq<string>, entry: string)
    requires SkillAccepted(skills, entry)
    ensures WithoutSkill(WithSkill(skills, entry), Trim(entry)) == skills
  {
    var t := Trim(entry);
    FilterConcat(skills, [t], Other(t));
    FilterKeepsAll(skills, Other(t));
    assert Filter([t], Other(t)) == [];
  }

  // ---------------------------------------------------------------------------------------
  // The technologies field of a portfolio item
  // ---------------------------------------------------------------------------------------

  function IsNonEmpty(s: string): bool
  {
    s != ""
  }

  /** Each piece trimmed. */
  function TrimAll(pieces: seq<string>): (r: seq<string>)
    ensures |r| == |pieces|
    ensures forall i :: 0 <= i < |r| ==> r[i] == Trim(pieces[i])
  {
    seq(|pieces|, i requires 0 <= i < |pieces| => Trim(pieces[i]))
  }

  /** What a parsed technology looks like: no whitespace at either end and no comma. */
  predicate IsTechnologyName(t: string)
  {
    IsTrimmed(t) && ',' !in t
  }

  /** Trimming comma-free pieces leaves technology names. */
  lemma TrimmedPieces(pieces: seq<string>)
    requires forall i :: 0 <= i < |pieces| ==> ',' !in pieces[i]
    ensures forall i :: 0 <= i < |pieces| ==> IsTechnologyName(TrimAll(pieces)[i])
  {
    forall i | 0 <= i < |pieces| ensures IsTechnologyName(TrimAll(pieces)[i]) {
      TrimWithout(pieces[i], ',');
    }
  }

  /** The technologies typed into a portfolio item: the text split at commas, each piece
      trimmed, the empty pieces dropped. */
  function ParseTechnologies(text: string): (r: seq<string>)
    ensures forall i :: 0 <= i < |r| ==> r[i] != "" && IsTechnologyName(r[i])
    ensures forall i :: 0 <= i < |SplitOn(text, ',')| && Trim(SplitOn(text, ',')[i]) != "" ==>
              Trim(SplitOn(text, ',')[i]) in r
    ensures Subsequence(r, TrimAll(SplitOn(text, ',')))
    ensures forall p :: multiset(r)[p] == if p != "" then multiset(TrimAll(SplitOn(text, ',')))[p] else 0
  {
    var pieces := SplitOn(text, ',');
    TrimmedPieces(pieces);
    FilterIsSubsequence(TrimAll(pieces), IsNonEmpty);
    FilterMultiset(TrimAll(pieces), IsNonEmpty);
    Filter(TrimAll(pieces), IsNonEmpty)
  }

  /** Trimming adds no character. */
  lemma TrimWithout(s: string, c: char)
    requires c !in s
    ensures c !in Trim(s)
  {
    var start := LeadingWhitespace(s);
    var t := Trim(s);
    assert t == s[start..start + |t|];
    forall k | 0 <= k < |t| ensures t[k] != c {
      assert t[k] == s[start + k];
    }
  }

  /** Each piece after the first, with the space the display puts after each comma. */
  function Spaced(pieces: seq<string>): (r: seq<string>)
    ensures |r| == |pieces|
  {
    seq(|pieces|, i requires 0 <= i < |pieces| => " " + pieces[i])
  }

  lemma {:induction false} JoinSpaced(pieces: seq<string>)
    requires |pieces| >= 1
    ensures " " + Join(pieces, ", ") == Join(Spaced(pieces), [','])
  {
    if |pieces| > 1 {
      JoinSpaced(pieces[1..]);
      assert Spaced(pieces)[1..] == Spaced(pieces[1..]);
      assert " " + Join(pieces, ", ") == (" " + pieces[0]) + [','] + (" " + Join(pieces[1..], ", "));
    }
  }

  /** What the field shows: the technologies joined by a comma and a space, which is the
      same as joining them at bare commas with a space in front of every one after the first. */
  function ShowTechnologies(technologies: seq<string>): (r: string)
    ensures technologies == [] ==> r == ""
    ensures technologies != [] ==> r == Join([technologies[0]] + Spaced(technologies[1..]), [','])
  {
    if |technologies| > 1 then
      JoinSpaced(technologies[1..]);
      assert ([technologies[0]] + Spaced(technologies[1..]))[1..] == Spaced(technologies[1..]);
      Join(technologies, ", ")
    else
      Join(technologies, ", ")
  }

  /** What the field shows parses back to the list, when every technology is a non-empty,
      trimmed name without a comma, as the parser produces them. */
  lemma ParseShownTechnologies(technologies: seq<string>)
    requires forall i :: 0 <= i < |technologies| ==> technologies[i] != "" && IsTechnologyName(technologies[i])
    ensures ParseTechnologies(ShowTechnologies(technologies)) == technologies
  {
    if technologies == [] {
      assert SplitOn("", ',') == [""];
      assert TrimAll([""]) == [""];
      assert Filter([""], IsNonEmpty) == [];
    } else {
      ShownPiecesTrim(technologies);
      FilterKeepsAll(technologies, IsNonEmpty);
    }
  }

  /** The pieces of a non-empty shown list, once trimmed, are the technologies. */
  lemma ShownPiecesTrim(technologies: seq<string>)
    requires technologies != []
    requires forall i :: 0 <= i < |technologies| ==> technologies[i] != "" && IsTechnologyName(technologies[i])
    ensures TrimAll(SplitOn(ShowTechnologies(technologies), ',')) == technologies
  {
    var pieces := [technologies[0]] + Spaced(technologies[1..]);
    assert forall k :: 0 <= k < |pieces| ==> ',' !in pieces[k] by {
      forall k | 1 <= k < |pieces| ensures ',' !in pieces[k] {
        assert pieces[k] == " " + technologies[k];
      }
    }
    SplitOnJoin(pieces, ',');
    forall k | 0 <= k < |pieces| ensures Trim(pieces[k]) == technologies[k] {
      if k == 0 {
        TrimOfTrimmed(technologies[0]);
      } else {
        assert pieces[k] == " " + technologies[k];
        TrimAfterWhitespace(" ", technologies[k]);
        TrimOfTrimmed(technologies[k]);
      }
    }
  }

  /** The technologies as the list value stored in the record. */
  function TechnologiesValue(technologies: seq<string>): (v: JsValue)
    ensures v.Arr? && |v.items| == |technologies|
    ensures forall i :: 0 <= i < |technologies| ==> v.items[i] == Str(technologies[i])
  {
    Arr(seq(|technologies|, i requires 0 <= i < |technologies| => Str(technologies[i])))
  }

  // ---------------------------------------------------------------------------------------
  // The profile-picture guard
  // ---------------------------------------------------------------------------------------

  /** The browser file an input yields: its name, MIME type and size in bytes. */
  datatype UploadFile = UploadFile(name: string, mimeType: string, size: nat)

  const MaxPictureBytes: nat := 5 * 1024 * 1024

  /** Why `handleProfilePicUpload` refuses a file, or `None` when it uploads it. */
  function PictureRejection(file: UploadFile): (r: Option<string>)
    ensures r.None? <==> StartsWith(file.mimeType, "image/") && file.size <= MaxPictureBytes
    ensures !StartsWith(file.mimeType, "image/") ==> r == Some("Please select an image file")
    ensures StartsWith(file.mimeType, "image/") && file.size > MaxPictureBytes ==>
              r == Some("Image size must be less than 5MB")
  {
    if !StartsWith(file.mimeType, "image/") then Some("Please select an image file")
    else if file.size > MaxPictureBytes then Some("Image size must be less than 5MB")
    else None
  }

  // ---------------------------------------------------------------------------------------
  // The component
  // ---------------------------------------------------------------------------------------

  /** The banner message: its text and its kind, `"success"` or `"error"`. */
  datatype Message = Message(text: string, kind: string)

  /** A snapshot of the component's state. */
  datatype EditorState = EditorState(
    profileExists: bool,
    message: Message,
    skills: seq<string>,
    newSkill: string,
    academics: seq<Record>,
    certifications: seq<Record>,
    experiences: seq<Record>,
    portfolioItems: seq<Record>,
    resumeUrl: string,
    profilePicUrl: string)

  const InitialState: EditorState :=
    EditorState(false, Message("", ""), [], "", [], [], [], [], "", "")

  /** What an upload handler leaves: on success, `onSuccess` with a success message; on
      failure, `s` with an error message. */
  function AfterUpload(s: EditorState, upload: Result<string, string>, onSuccess: EditorState,
                       succeeded: string, failed: string): (r: EditorState)
    ensures upload.Success? ==> r == onSuccess.(message := Message(succeeded, "success"))
    ensures upload.Failure? ==> r == s.(message := Message(failed, "error"))
  {
    if upload.Success? then onSuccess.(message := Message(succeeded, "success"))
    else s.(message := Message(failed, "error"))
  }

  class ProfileEditor {
    var profileExists: bool
    var message: Message
    var skills: seq<string>
    var newSkill: string
    var academics: seq<Record>
    var certifications: seq<Record>
    var experiences: seq<Record>
    var portfolioItems: seq<Record>
    var resumeUrl: string
    var profilePicUrl: string

    function State(): EditorState
      reads this
    {
      EditorState(profileExists, message, skills, newSkill, academics, certifications, experiences,
                  portfolioItems, resumeUrl, profilePicUrl)
    }

    /** The initial `useState` values. */
    constructor()
      ensures State() == InitialState
    {
      profileExists, message, skills, newSkill := false, Message("", ""), [], "";
      academics, certifications, experiences, portfolioItems := [], [], [], [];
      resumeUrl, profilePicUrl := "", "";
    }

    /** Typing in the skill box. */
    method SetNewSkill(text: string)
      modifies this
      ensures State() == old(State()).(newSkill := text)
    {
      newSkill := text;
    }

    /** `addSkill`: appends the trimmed entry and clears the box when it is accepted; otherwise
        changes nothing. A list without duplicates keeps none. */
    method AddSkill()
      modifies this
      ensures SkillAccepted(old(skills), old(newSkill)) ==>
                State() == old(State()).(skills := old(skills) + [Trim(old(newSkill))], newSkill := "")
      ensures !SkillAccepted(old(skills), old(newSkill)) ==> State() == old(State())
      ensures NoDuplicates(old(skills)) ==> NoDuplicates(skills)
    {
      if SkillAccepted(skills, newSkill) {
        skills := WithSkill(skills, newSkill);
        newSkill := "";
      }
    }

    /** `removeSkill`: drops every occurrence of `skill`, keeping the rest in order. */
    method RemoveSkill(skill: string)
      modifies this
      ensures State() == old(State()).(skills := WithoutSkill(old(skills), skill))
      ensures skill !in skills && Subsequence(skills, old(skills))
    {
      skills := WithoutSkill(skills, skill);
    }

    /** `addAcademic`, with `now` the value of `Date.now()`. */
    method AddAcademic(now: int)
      modifies this
      ensures State() == old(State()).(academics := old(academics) + [BlankAcademic(now)])
    {
      academics := academics + [BlankAcademic(now)];
    }

    /** `updateAcademic`. */
    method UpdateAcademic(id: JsValue, field: string, value: JsValue)
      modifies this
      ensures State() == old(State()).(academics := UpdateById(old(academics), id, field, value))
    {
      academics := UpdateById(academics, id, field, value);
    }

    /** `removeAcademic`. */
    method RemoveAcademic(id: JsValue)
      modifies this
      ensures State() == old(State()).(academics := RemoveById(old(academics), id))
    {
      academics := RemoveById(academics, id);
    }

    /** `addCertification`. */
    method AddCertification(now: int)
      modifies this
      ensures State() == old(State()).(certifications := old(certifications) + [BlankCertification(now)])
    {
      certifications := certifications + [BlankCertification(now)];
    }

    /** `updateCertification`. */
    method UpdateCertification(id: JsValue, field: string, value: JsValue)
      modifies this
      ensures State() == old(State()).(certifications := UpdateById(old(certifications), id, field, value))
    {
      certifications := UpdateById(certifications, id, field, value);
    }

    /** `removeCertification`. */
    method RemoveCertification(id: JsValue)
      modifies this
      ensures State() == old(State()).(certifications := RemoveById(old(certifications), id))
    {
      certifications := RemoveById(certifications, id);
    }

    /** `addExperience`. */
    method AddExperience(now: int)
      modifies this
      ensures State() == old(State()).(experiences := old(experiences) + [BlankExperience(now)])
    {
      experiences := experiences + [BlankExperience(now)];
    }

    /** `updateExperience`. */
    method UpdateExperience(id: JsValue, field: string, value: JsValue)
      modifies this
      ensures State() == old(State()).(experiences := UpdateById(old(experiences), id, field, value))
    {
      experiences := UpdateById(experiences, id, field, value);
    }

    /** `removeExperience`. */
    method RemoveExperience(id: JsValue)
      modifies this
      ensures State() == old(State()).(experiences := RemoveById(old(experiences), id))
    {
      experiences := RemoveById(experiences, id);
    }

    /** `addPortfolioItem`. */
    method AddPortfolioItem(now: int)
      modifies this
      ensures State() == old(State()).(portfolioItems := old(portfolioItems) + [BlankPortfolioItem(now)])
    {
      portfolioItems := portfolioItems + [BlankPortfolioItem(now)];
    }

    /** `updatePortfolioItem`. */
    method UpdatePortfolioItem(id: JsValue, field: string, value: JsValue)
      modifies this
      ensures State() == old(State()).(portfolioItems := UpdateById(old(portfolioItems), id, field, value))
    {
      portfolioItems := UpdateById(portfolioItems, id, field, value);
    }

    /** `removePortfolioItem`. */
    method RemovePortfolioItem(id: JsValue)
      modifies this
      ensures State() == old(State()).(portfolioItems := RemoveById(old(portfolioItems), id))
    {
      portfolioItems := RemoveById(portfolioItems, id);
    }

    /** Editing the technologies field of portfolio item `id`. */
    method EditTechnologies(id: JsValue, text: string)
      modifies this
      ensures State() == old(State()).(portfolioItems :=
                UpdateById(old(portfolioItems), id, "technologies", TechnologiesValue(ParseTechnologies(text))))
    {
      portfolioItems := UpdateById(portfolioItems, id, "technologies", TechnologiesValue(ParseTechnologies(text)));
    }

    /** `handleProfilePicUpload`: `signedIn` stands for a session and a user being present,
        `u` for `Math.random()` and `storageFailed` for the storage error. Only an accepted
        image is uploaded, and only a successful upload changes the picture. */
    method HandleProfilePicUpload(file: Option<UploadFile>, signedIn: bool, supabaseUrl: string, userId: string,
                                  u: real, storageFailed: bool)
      requires 0.0 <= u < 1.0
      modifies this
      ensures file.None? || !signedIn ==> State() == old(State())
      ensures file.Some? && signedIn && PictureRejection(file.value).Some? ==>
                State() == old(State()).(message := Message(PictureRejection(file.value).value, "error"))
      ensures file.Some? && signedIn && PictureRejection(file.value).None? ==>
                var upload := ApiProfile.UploadProfilePicture(supabaseUrl, u, userId, file.value.name, storageFailed);
                State() == AfterUpload(old(State()), upload,
                                       old(State()).(profilePicUrl := if upload.Success? then upload.value else ""),
                                       "Profile picture uploaded successfully!", "Failed to upload profile picture")
      ensures profilePicUrl != old(profilePicUrl) ==>
                file.Some? && PictureRejection(file.value).None? && !storageFailed
    {
      if file.None? || !signedIn {
        return;
      }
      var rejection := PictureRejection(file.value);
      if rejection.Some? {
        message := Message(rejection.value, "error");
        return;
      }
      var upload := ApiProfile.UploadProfilePicture(supabaseUrl, u, userId, file.value.name, storageFailed);
      if upload.Success? {
        profilePicUrl := upload.value;
        message := Message("Profile picture uploaded successfully!", "success");
      } else {
        message := Message("Failed to upload profile picture", "error");
      }
    }

    /** `handleResumeUpload`. */
    method HandleResumeUpload(file: Option<UploadFile>, signedIn: bool, supabaseUrl: string, userId: string,
                              u: real, storageFailed: bool)
      requires 0.0 <= u < 1.0
      modifies this
      ensures file.None? || !signedIn ==> State() == old(State())
      ensures file.Some? && signedIn ==>
                var upload := ApiProfile.UploadResume(supabaseUrl, u, userId, file.value.name, storageFailed);
                State() == AfterUpload(old(State()), upload,
                                       old(State()).(resumeUrl := if upload.Success? then upload.value else ""),
                                       "Resume uploaded successfully!", "Failed to upload resume")
    {
      if file.None? || !signedIn {
        return;
      }
      var upload := ApiProfile.UploadResume(supabaseUrl, u, userId, file.value.name, storageFailed);
      if upload.Success? {
        resumeUrl := upload.value;
        message := Message("Resume uploaded successfully!", "success");
      } else {
        message := Message("Failed to upload resume", "error");
      }
    }

    /** `handleCertificationFileUpload`: uploads under the certificate's name, or
        `"certificate"` when it has none, and stores the URL in its `file_url`. */
    method HandleCertificationFileUpload(id: JsValue, file: Option<UploadFile>, signedIn: bool,
                                         supabaseUrl: string, userId: string, u: real, storageFailed: bool)
      requires 0.0 <= u < 1.0
      modifies this
      ensures file.None? || !signedIn || FindById(old(certifications), id).None? ==> State() == old(State())
      ensures file.Some? && signedIn && FindById(old(certifications), id).Some? ==>
                var name := TextOr(FindById(old(certifications), id).value, "name", "certificate");
                var upload := ApiProfile.UploadCertification(supabaseUrl, u, userId, name, file.value.name, storageFailed);
                State() == AfterUpload(old(State()), upload,
                                       old(State()).(certifications := UpdateById(old(certifications), id, "file_url",
                                                       Str(if upload.Success? then upload.value else ""))),
                                       "Certification file uploaded successfully!", "Failed to upload certification file")
    {
      if file.None? || !signedIn {
        return;
      }
      var cert := FindById(certifications, id);
      if cert.None? {
        return;
      }
      var name := TextOr(cert.value, "name", "certificate");
      var upload := ApiProfile.UploadCertification(supabaseUrl, u, userId, name, file.value.name, storageFailed);
      if upload.Success? {
        certifications := UpdateById(certifications, id, "file_url", Str(upload.value));
        message := Message("Certification file uploaded successfully!", "success");
      } else {
        message := Message("Failed to upload certification file", "error");
      }
    }

    /** `handleExperienceLogoUpload`: needs a session but no user, uploads under the company
        name, or `"company"` when it has none, and stores the URL in `company_logo_url`. */
    method HandleExperienceLogoUpload(id: JsValue, file: Option<UploadFile>, hasSession: bool,
                                      supabaseUrl: string, u: real, storageFailed: bool)
      requires 0.0 <= u < 1.0
      modifies this
      ensures file.None? || !hasSession || FindById(old(experiences), id).None? ==> State() == old(State())
      ensures file.Some? && hasSession && FindById(old(experiences), id).Some? ==>
                var name := TextOr(FindById(old(experiences), id).value, "company_name", "company");
                var upload := ApiProfile.UploadExperienceLogo(supabaseUrl, u, name, storageFailed);
                State() == AfterUpload(old(State()), upload,
                                       old(State()).(experiences := UpdateById(old(experiences), id, "company_logo_url",
                                                       Str(if upload.Success? then upload.value else ""))),
                                       "Company logo uploaded successfully!", "Failed to upload company logo")
    {
      if file.None? || !hasSession {
        return;
      }
      var exp := FindById(experiences, id);
      if exp.None? {
        return;
      }
      var name := TextOr(exp.value, "company_name", "company");
      var upload := ApiProfile.UploadExperienceLogo(supabaseUrl, u, name, storageFailed);
      if upload.Success? {
        experiences := UpdateById(experiences, id, "company_logo_url", Str(upload.value));
        message := Message("Company logo uploaded successfully!", "success");
      } else {
        message := Message("Failed to upload company logo", "error");
      }
    }

    /** `handlePortfolioImageUpload`: uploads under the item's title, or `"project"` when it
        has none, and stores the URL in `image_url`. */
    method HandlePortfolioImageUpload(id: JsValue, file: Option<UploadFile>, signedIn: bool,
                                      supabaseUrl: string, userId: string, u: real, storageFailed: bool)
      requires 0.0 <= u < 1.0
      modifies this
      ensures file.None? || !signedIn || FindById(old(portfolioItems), id).None? ==> State() == old(State())
      ensures file.Some? && signedIn && FindById(old(portfolioItems), id).Some? ==>
                var title := TextOr(FindById(old(portfolioItems), id).value, "title", "project");
                var upload := ApiProfile.UploadPortfolioItem(supabaseUrl, u, userId, title, file.value.name, storageFailed);
                State() == AfterUpload(old(State()), upload,
                                       old(State()).(portfolioItems := UpdateById(old(portfolioItems), id, "image_url",
                                                       Str(if upload.Success? then upload.value else ""))),
                                       "Portfolio image uploaded successfully!", "Failed to upload portfolio image")
    {
      if file.None? || !signedIn {
        return;
      }
      var item := FindById(portfolioItems, id);
      if item.None? {
        return;
      }
      var title := TextOr(item.value, "title", "project");
      var upload := ApiProfile.UploadPortfolioItem(supabaseUrl, u, userId, title, file.value.name, storageFailed);
      if upload.Success? {
        portfolioItems := UpdateById(portfolioItems, id, "image_url", Str(upload.value));
        message := Message("Portfolio image uploaded successfully!", "success");
      } else {
        message := Message("Failed to upload portfolio image", "error");
      }
    }

    /** `saveProfile`: upserts an existing profile or creates a new one, with `q` what the
        database answered to that write. A successful create marks the profile as existing;
        once it exists it stays so. */
    method SaveProfile(signedIn: bool, q: ApiProfile.QueryResult)
      modifies this
      ensures !signedIn ==> State() == old(State())
      ensures signedIn && q.error.Some? ==>
                State() == old(State()).(message := Message("Failed to save profile", "error"))
      ensures signedIn && q.error.None? && old(profileExists) ==>
                State() == old(State()).(message := Message("Profile updated successfully!", "success"))
      ensures signedIn && q.error.None? && !old(profileExists) ==>
                State() == old(State()).(profileExists := true,
                                         message := Message("Profile created successfully!", "success"))
      ensures profileExists <==> old(profileExists) || (signedIn && q.error.None?)
    {
      if !signedIn {
        return;
      }
      if profileExists {
        var saved := ApiProfile.UpsertProfile(q);
        if saved.Success? {
          message := Message("Profile updated successfully!", "success");
        } else {
          message := Message("Failed to save profile", "error");
        }
      } else {
        var created := ApiProfile.CreateProfile(q);
        if created.Success? {
          profileExists := true;
          message := Message("Profile created successfully!", "success");
        } else {
          message := Message("Failed to save profile", "error");
        }
      }
    }
  }
}
