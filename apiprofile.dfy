/** The string logic of the profile API: which database errors mean "no profile yet", how
    uploaded files are named, the public URL of a stored file, and the file name a delete
    request extracts from such a URL. The database and storage calls themselves are
    parameters: each operation receives what the call returned. */
module ApiProfile {
  import opened Wrappers
  import opened Text
  import opened JsValues

  // ---------------------------------------------------------------------------------------
  // Database results
  // ---------------------------------------------------------------------------------------

  /** The PostgREST code of a `.single()` query that matched no row. */
  const MissingRowCode: string := "PGRST116"

  /** An error returned by the database client; `code` is absent for errors without one. */
  datatype DbError = DbError(code: Option<string>)

  /** What a query returns: its `data` and its `error`, `None` standing for `null`. */
  datatype QueryResult = QueryResult(data: JsValue, error: Option<DbError>)

  /** The "no rows" error is the only one `checkProfileExists` tolerates. */
  predicate IsMissingRow(e: DbError)
  {
    e.code == Some(MissingRowCode)
  }

  /** `checkProfileExists`: any error other than "no rows" answers `false`; otherwise the
      answer is whether a row came back. */
  function CheckProfileExists(q: QueryResult): (found: bool)
    ensures q.error.Some? && !IsMissingRow(q.error.value) ==> !found
    ensures (q.error.None? || IsMissingRow(q.error.value)) ==> (found <==> Truthy(q.data))
    ensures found ==> Truthy(q.data)
  {
    if q.error.Some? && !IsMissingRow(q.error.value) then false else Truthy(q.data)
  }

  /** `getProfile`: `null` on any error, the row otherwise. */
  function GetProfile(q: QueryResult): (r: JsValue)
    ensures q.error.Some? ==> r == Null
    ensures q.error.None? ==> r == q.data
  {
    if q.error.Some? then Null else q.data
  }

  /** A write that throws `message` when the database reports an error. */
  function Written(q: QueryResult, message: string): (r: Result<JsValue, string>)
    ensures r.Failure? <==> q.error.Some?
    ensures r.Failure? ==> r.error == message
    ensures r.Success? ==> r.value == q.data
  {
    if q.error.Some? then Failure(message) else Success(q.data)
  }

  /** `upsertProfile`. */
  function UpsertProfile(q: QueryResult): (r: Result<JsValue, string>)
    ensures r.Failure? <==> q.error.Some?
    ensures r.Failure? ==> r.error == "Error saving profile"
    ensures r.Success? ==> r.value == q.data
  {
    Written(q, "Error saving profile")
  }

  /** `updateProfile`. */
  function UpdateProfile(q: QueryResult): (r: Result<JsValue, string>)
    ensures r.Failure? <==> q.error.Some?
    ensures r.Failure? ==> r.error == "Error updating profile"
    ensures r.Success? ==> r.value == q.data
  {
    Written(q, "Error updating profile")
  }

  /** `createProfile`. */
  function CreateProfile(q: QueryResult): (r: Result<JsValue, string>)
    ensures r.Failure? <==> q.error.Some?
    ensures r.Failure? ==> r.error == "Error creating profile"
    ensures r.Success? ==> r.value == q.data
  {
    Written(q, "Error creating profile")
  }

  /** On an error the read answers `null` where every write throws. */
  lemma ErrorsReadAsNullButWritesThrow(q: QueryResult)
    requires q.error.Some?
    ensures GetProfile(q) == Null
    ensures !IsMissingRow(q.error.value) ==> !CheckProfileExists(q)
    ensures UpsertProfile(q).Failure? && UpdateProfile(q).Failure? && CreateProfile(q).Failure?
  {
  }

  // ---------------------------------------------------------------------------------------
  // File-name components
  // ---------------------------------------------------------------------------------------

  predicate IsAsciiAlphanumeric(c: char)
  {
    ('a' <= c <= 'z') || ('A' <= c <= 'Z') || ('0' <= c <= '9')
  }

  /** Every character other than an ASCII letter or digit replaced by `-`. */
  function Sanitize(s: string): (r: string)
    ensures |r| == |s|
    ensures forall i :: 0 <= i < |s| && IsAsciiAlphanumeric(s[i]) ==> r[i] == s[i]
    ensures forall i :: 0 <= i < |s| && !IsAsciiAlphanumeric(s[i]) ==> r[i] == '-'
    ensures forall i :: 0 <= i < |r| ==> IsAsciiAlphanumeric(r[i]) || r[i] == '-'
  {
    seq(|s|, i requires 0 <= i < |s| => if IsAsciiAlphanumeric(s[i]) then s[i] else '-')
  }

  /** Sanitising a sanitised string changes nothing. */
  lemma SanitizeIdempotent(s: string)
    ensures Sanitize(Sanitize(s)) == Sanitize(s)
  {
  }

  predicate IsDigit(c: char)
  {
    '0' <= c <= '9'
  }

  function DigitChar(d: nat): (c: char)
    requires d < 10
    ensures IsDigit(c)
  {
    ('0' as int + d) as char
  }

  /** The decimal rendering of a natural number in a template string. */
  function DecimalString(n: nat): (r: string)
    ensures |r| >= 1
    ensures forall i :: 0 <= i < |r| ==> IsDigit(r[i])
    ensures |r| > 1 ==> r[0] != '0'
    ensures n < 10 <==> |r| == 1
  {
    if n < 10 then [DigitChar(n)] else DecimalString(n / 10) + [DigitChar(n % 10)]
  }

  /** The number a string of decimal digits denotes. */
  function ParseDecimal(s: string): nat
    requires forall i :: 0 <= i < |s| ==> IsDigit(s[i])
  {
    if s == [] then 0
    else
      assert IsDigit(s[|s| - 1]);
      ParseDecimal(s[..|s| - 1]) * 10 + (s[|s| - 1] as int - '0' as int)
  }

  /** The decimal rendering denotes the number rendered: no two numbers render alike. */
  lemma {:induction false} ParseDecimalString(n: nat)
    ensures ParseDecimal(DecimalString(n)) == n
  {
    var r := DecimalString(n);
    if n >= 10 {
      ParseDecimalString(n / 10);
      assert r[..|r| - 1] == DecimalString(n / 10);
    }
  }

  /** The random component of a file name: `u` scaled to 90000 and rounded down, with `u`
      the value `Math.random()` returned. */
  function RandomComponent(u: real): (r: nat)
    requires 0.0 <= u < 1.0
    ensures r < 90000
    ensures r as real <= u * 90000.0 < r as real + 1.0
  {
    (u * 90000.0).Floor
  }

  /** The profile-picture extension: the text after the last `.` of the file name. */
  function Extension(fileName: string): (r: string)
    ensures '.' !in r
    ensures |r| <= |fileName| && r == fileName[|fileName| - |r|..]
    ensures |r| < |fileName| ==> fileName[|fileName| - |r| - 1] == '.'
    ensures r == fileName <==> '.' !in fileName
  {
    LastSegment(fileName, '.')
  }

  // ---------------------------------------------------------------------------------------
  // File names and URLs
  // ---------------------------------------------------------------------------------------

  const ResumeBucket: string := "resumes"
  const ExperienceLogoBucket: string := "experience-logos"
  const PortfolioBucket: string := "portfolios"
  const CertificationBucket: string := "certifications"
  const ProfilePictureBucket: string := "profile-pictures"

  /** The path of a public object below the project URL, up to the bucket name. */
  const PublicObjectPath: string := "/storage/v1/object/public/"

  /** `s.endsWith(suffix)`. */
  predicate EndsWith(s: string, suffix: string)
  {
    |suffix| <= |s| && s[|s| - |suffix|..] == suffix
  }

  /** A resume: `resume-`, the random component, the user id and the file name, joined by `-`. */
  function ResumeFileName(random: nat, userId: string, fileName: string): (r: string)
    ensures StartsWith(r, "resume-" + DecimalString(random) + "-" + userId + "-")
    ensures EndsWith(r, fileName)
    ensures |r| == |"resume-" + DecimalString(random) + "-" + userId + "-"| + |fileName|
  {
    "resume-" + DecimalString(random) + "-" + userId + "-" + fileName
  }

  /** The random component can be read back from a resume name: for a fixed user id and file
      name, two resume names are equal exactly when their random components are. */
  lemma ResumeFileNameInjective(a: nat, b: nat, userId: string, fileName: string)
    ensures ResumeFileName(a, userId, fileName) == ResumeFileName(b, userId, fileName) <==> a == b
  {
    var rest := userId + "-" + fileName;
    var tailA := DecimalString(a) + ['-'] + rest;
    var tailB := DecimalString(b) + ['-'] + rest;
    assert ResumeFileName(a, userId, fileName) == "resume-" + tailA;
    assert ResumeFileName(b, userId, fileName) == "resume-" + tailB;
    assert !IsDigit('-');
    FirstSegmentOfPrefix(DecimalString(a), '-', rest);
    FirstSegmentOfPrefix(DecimalString(b), '-', rest);
    if ResumeFileName(a, userId, fileName) == ResumeFileName(b, userId, fileName) {
      assert tailA == ("resume-" + tailA)[7..];
      assert tailB == ("resume-" + tailB)[7..];
      ParseDecimalString(a);
      ParseDecimalString(b);
    }
  }

  /** A company logo: `exp-logo-`, the random component and the company name, joined by `-`;
      the company name is used as typed. */
  function ExperienceLogoFileName(random: nat, companyName: string): (r: string)
    ensures StartsWith(r, "exp-logo-" + DecimalString(random) + "-")
    ensures EndsWith(r, companyName)
    ensures |r| == |"exp-logo-" + DecimalString(random) + "-"| + |companyName|
  {
    "exp-logo-" + DecimalString(random) + "-" + companyName
  }

  /** A portfolio image: `portfolio-`, the random component, the user id, the sanitised title
      and the file name, joined by `-`. */
  function PortfolioFileName(random: nat, userId: string, title: string, fileName: string): (r: string)
    ensures StartsWith(r, "portfolio-" + DecimalString(random) + "-" + userId + "-")
    ensures EndsWith(r, fileName)
    ensures var prefix := "portfolio-" + DecimalString(random) + "-" + userId + "-";
            |prefix| + |title| <= |r| && r[|prefix|..|prefix| + |title|] == Sanitize(title)
    ensures |r| == |"portfolio-" + DecimalString(random) + "-" + userId + "-"| + |title| + 1 + |fileName|
    ensures r[|r| - |fileName| - 1] == '-'
  {
    "portfolio-" + DecimalString(random) + "-" + userId + "-" + Sanitize(title) + "-" + fileName
  }

  /** A certification file: `cert-`, the random component, the user id, the sanitised
      certificate name and the file name, joined by `-`. */
  function CertificationFileName(random: nat, userId: string, certName: string, fileName: string): (r: string)
    ensures StartsWith(r, "cert-" + DecimalString(random) + "-" + userId + "-")
    ensures EndsWith(r, fileName)
    ensures var prefix := "cert-" + DecimalString(random) + "-" + userId + "-";
            |prefix| + |certName| <= |r| && r[|prefix|..|prefix| + |certName|] == Sanitize(certName)
    ensures |r| == |"cert-" + DecimalString(random) + "-" + userId + "-"| + |certName| + 1 + |fileName|
    ensures r[|r| - |fileName| - 1] == '-'
  {
    "cert-" + DecimalString(random) + "-" + userId + "-" + Sanitize(certName) + "-" + fileName
  }

  /** A profile picture: `profile-pic-`, the random component and the user id joined by `-`,
      then `.` and the extension of the uploaded file. */
  function ProfilePictureFileName(random: nat, userId: string, fileName: string): (r: string)
    ensures StartsWith(r, "profile-pic-" + DecimalString(random) + "-" + userId + ".")
    ensures EndsWith(r, Extension(fileName))
    ensures |r| == |"profile-pic-" + DecimalString(random) + "-" + userId + "."| + |Extension(fileName)|
  {
    "profile-pic-" + DecimalString(random) + "-" + userId + "." + Extension(fileName)
  }

  /** The stored picture keeps the extension of the uploaded file, whatever the user id. */
  lemma ProfilePictureKeepsExtension(random: nat, userId: string, fileName: string)
    ensures Extension(ProfilePictureFileName(random, userId, fileName)) == Extension(fileName)
  {
    var ext := Extension(fileName);
    assert ProfilePictureFileName(random, userId, fileName)
        == ("profile-pic-" + DecimalString(random) + "-" + userId) + ['.'] + ext;
    LastSegmentAfterSeparator("profile-pic-" + DecimalString(random) + "-" + userId, '.', ext);
  }

  /** The public URL of `fileName` in `bucket` below the project URL. */
  function PublicUrl(supabaseUrl: string, bucket: string, fileName: string): (r: string)
    ensures StartsWith(r, supabaseUrl + PublicObjectPath + bucket + "/")
    ensures EndsWith(r, fileName)
    ensures |r| == |supabaseUrl + PublicObjectPath + bucket + "/"| + |fileName|
  {
    supabaseUrl + PublicObjectPath + bucket + "/" + fileName
  }

  /** What an upload answers: the public URL of `fileName` in `bucket`, or the error
      `message` when storage reports an error. */
  function Uploaded(supabaseUrl: string, bucket: string, fileName: string, storageFailed: bool, message: string)
    : (r: Result<string, string>)
    ensures r.Failure? <==> storageFailed
    ensures r.Failure? ==> r.error == message
    ensures r.Success? ==> r.value == PublicUrl(supabaseUrl, bucket, fileName)
  {
    if storageFailed then Failure(message) else Success(PublicUrl(supabaseUrl, bucket, fileName))
  }

  /** `uploadResume`, with `u` the value of `Math.random()`. */
  function UploadResume(supabaseUrl: string, u: real, userId: string, fileName: string, storageFailed: bool)
    : (r: Result<string, string>)
    requires 0.0 <= u < 1.0
    ensures r.Failure? <==> storageFailed
    ensures r.Failure? ==> r.error == "Error uploading resume"
    ensures r.Success? ==> r.value == PublicUrl(supabaseUrl, ResumeBucket, ResumeFileName(RandomComponent(u), userId, fileName))
  {
    Uploaded(supabaseUrl, ResumeBucket, ResumeFileName(RandomComponent(u), userId, fileName),
             storageFailed, "Error uploading resume")
  }

  /** `uploadExperienceLogo`. */
  function UploadExperienceLogo(supabaseUrl: string, u: real, companyName: string, storageFailed: bool)
    : (r: Result<string, string>)
    requires 0.0 <= u < 1.0
    ensures r.Failure? <==> storageFailed
    ensures r.Failure? ==> r.error == "Error uploading company logo"
    ensures r.Success? ==> r.value == PublicUrl(supabaseUrl, ExperienceLogoBucket, ExperienceLogoFileName(RandomComponent(u), companyName))
  {
    Uploaded(supabaseUrl, ExperienceLogoBucket, ExperienceLogoFileName(RandomComponent(u), companyName),
             storageFailed, "Error uploading company logo")
  }

  /** `uploadPortfolioItem`. */
  function UploadPortfolioItem(supabaseUrl: string, u: real, userId: string, title: string, fileName: string,
                               storageFailed: bool)
    : (r: Result<string, string>)
    requires 0.0 <= u < 1.0
    ensures r.Failure? <==> storageFailed
    ensures r.Failure? ==> r.error == "Error uploading portfolio item"
    ensures r.Success? ==> r.value == PublicUrl(supabaseUrl, PortfolioBucket, PortfolioFileName(RandomComponent(u), userId, title, fileName))
  {
    Uploaded(supabaseUrl, PortfolioBucket, PortfolioFileName(RandomComponent(u), userId, title, fileName),
             storageFailed, "Error uploading portfolio item")
  }

  /** `uploadCertification`. */
  function UploadCertification(supabaseUrl: string, u: real, userId: string, certName: string, fileName: string,
                               storageFailed: bool)
    : (r: Result<string, string>)
    requires 0.0 <= u < 1.0
    ensures r.Failure? <==> storageFailed
    ensures r.Failure? ==> r.error == "Error uploading certification"
    ensures r.Success? ==> r.value == PublicUrl(supabaseUrl, CertificationBucket, CertificationFileName(RandomComponent(u), userId, certName, fileName))
  {
    Uploaded(supabaseUrl, CertificationBucket, CertificationFileName(RandomComponent(u), userId, certName, fileName),
             storageFailed, "Error uploading certification")
  }

  /** `uploadProfilePicture`. */
  function UploadProfilePicture(supabaseUrl: string, u: real, userId: string, fileName: string, storageFailed: bool)
    : (r: Result<string, string>)
    requires 0.0 <= u < 1.0
    ensures r.Failure? <==> storageFailed
    ensures r.Failure? ==> r.error == "Error uploading profile picture"
    ensures r.Success? ==> r.value == PublicUrl(supabaseUrl, ProfilePictureBucket, ProfilePictureFileName(RandomComponent(u), userId, fileName))
  {
    Uploaded(supabaseUrl, ProfilePictureBucket, ProfilePictureFileName(RandomComponent(u), userId, fileName),
             storageFailed, "Error uploading profile picture")
  }

  // ---------------------------------------------------------------------------------------
  // Deleting
  // ---------------------------------------------------------------------------------------

  /** The object name `deleteStorageFile` removes: the text after the last `/` of the path. */
  function StorageFileName(filePath: string): (r: string)
    ensures '/' !in r
    ensures |r| <= |filePath| && r == filePath[|filePath| - |r|..]
    ensures |r| < |filePath| ==> filePath[|filePath| - |r| - 1] == '/'
  {
    LastSegment(filePath, '/')
  }

  /** `deleteStorageFile`: asks storage to remove the object named by the last segment of
      `filePath`; `removeFails` is storage's answer for the object name it is given. The result
      is `true`, or the error "Error deleting file" when storage reports one. */
  function DeleteStorageFile(filePath: string, removeFails: string -> bool): (r: Result<bool, string>)
    ensures r.Failure? <==> removeFails(StorageFileName(filePath))
    ensures r.Failure? ==> r.error == "Error deleting file"
    ensures r.Success? ==> r.value
  {
    var fileName := StorageFileName(filePath);
    if removeFails(fileName) then Failure("Error deleting file") else Success(true)
  }

  /** The name taken from a public URL is the stored file's name exactly when that name has
      no `/`. */
  lemma StorageFileNameOfPublicUrl(supabaseUrl: string, bucket: string, fileName: string)
    ensures StorageFileName(PublicUrl(supabaseUrl, bucket, fileName)) == fileName <==> '/' !in fileName
  {
    if '/' !in fileName {
      var url := PublicUrl(supabaseUrl, bucket, fileName);
      assert url == (supabaseUrl + PublicObjectPath + bucket) + ['/'] + fileName;
      LastSegmentAfterSeparator(supabaseUrl + PublicObjectPath + bucket, '/', fileName);
    }
  }

  /** A resume URL names its file when neither the user id nor the file name holds a `/`. */
  lemma DeleteFindsResume(supabaseUrl: string, u: real, userId: string, fileName: string)
    requires 0.0 <= u < 1.0
    requires '/' !in userId && '/' !in fileName
    ensures var name := ResumeFileName(RandomComponent(u), userId, fileName);
            StorageFileName(UploadResume(supabaseUrl, u, userId, fileName, false).value) == name
  {
    var name := ResumeFileName(RandomComponent(u), userId, fileName);
    assert '/' !in DecimalString(RandomComponent(u));
    assert '/' !in name;
    StorageFileNameOfPublicUrl(supabaseUrl, ResumeBucket, name);
  }

  /** A portfolio URL names its file when neither the user id nor the file name holds a
      `/`; the title is sanitised and cannot. */
  lemma DeleteFindsPortfolioItem(supabaseUrl: string, u: real, userId: string, title: string, fileName: string)
    requires 0.0 <= u < 1.0
    requires '/' !in userId && '/' !in fileName
    ensures var name := PortfolioFileName(RandomComponent(u), userId, title, fileName);
            StorageFileName(UploadPortfolioItem(supabaseUrl, u, userId, title, fileName, false).value) == name
  {
    var name := PortfolioFileName(RandomComponent(u), userId, title, fileName);
    assert '/' !in DecimalString(RandomComponent(u));
    assert '/' !in Sanitize(title);
    assert '/' !in name;
    StorageFileNameOfPublicUrl(supabaseUrl, PortfolioBucket, name);
  }

  /** A certification URL names its file when neither the user id nor the file name holds a
      `/`; the certificate name is sanitised and cannot. */
  lemma DeleteFindsCertification(supabaseUrl: string, u: real, userId: string, certName: string, fileName: string)
    requires 0.0 <= u < 1.0
    requires '/' !in userId && '/' !in fileName
    ensures var name := CertificationFileName(RandomComponent(u), userId, certName, fileName);
            StorageFileName(UploadCertification(supabaseUrl, u, userId, certName, fileName, false).value) == name
  {
    var name := CertificationFileName(RandomComponent(u), userId, certName, fileName);
    assert '/' !in DecimalString(RandomComponent(u));
    assert '/' !in Sanitize(certName);
    assert '/' !in name;
    StorageFileNameOfPublicUrl(supabaseUrl, CertificationBucket, name);
  }

  /** A profile-picture URL names its file when neither the user id nor the file name holds
      a `/`. */
  lemma DeleteFindsProfilePicture(supabaseUrl: string, u: real, userId: string, fileName: string)
    requires 0.0 <= u < 1.0
    requires '/' !in userId && '/' !in fileName
    ensures var name := ProfilePictureFileName(RandomComponent(u), userId, fileName);
            StorageFileName(UploadProfilePicture(supabaseUrl, u, userId, fileName, false).value) == name
  {
    var name := ProfilePictureFileName(RandomComponent(u), userId, fileName);
    assert '/' !in DecimalString(RandomComponent(u));
    assert '/' !in Extension(fileName);
    assert '/' !in name;
    StorageFileNameOfPublicUrl(supabaseUrl, ProfilePictureBucket, name);
  }

  /** A company logo URL names its file exactly when the company name, which is not
      sanitised, holds no `/`. */
  lemma DeleteFindsExperienceLogo(supabaseUrl: string, u: real, companyName: string)
    requires 0.0 <= u < 1.0
    ensures var name := ExperienceLogoFileName(RandomComponent(u), companyName);
            StorageFileName(UploadExperienceLogo(supabaseUrl, u, companyName, false).value) == name
            <==> '/' !in companyName
  {
    var name := ExperienceLogoFileName(RandomComponent(u), companyName);
    var head := "exp-logo-" + DecimalString(RandomComponent(u)) + "-";
    assert name == head + companyName;
    assert '/' !in head;
    assert '/' in name <==> '/' in companyName by {
      if '/' in companyName {
        var k :| 0 <= k < |companyName| && companyName[k] == '/';
        assert name[|head| + k] == '/';
      }
    }
    StorageFileNameOfPublicUrl(supabaseUrl, ExperienceLogoBucket, name);
  }
}
