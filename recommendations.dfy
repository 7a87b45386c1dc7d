/** The job-recommendation scorer: each catalog job is scored by how many of the candidate's
    skills occur among the words of its requirements, the catalog is sorted by score, highest
    first, and the first three jobs are returned. The profile and the catalog, which the source
    fetches from the database, are parameters here. */
module ApiRecommendations {
  import opened Wrappers
  import opened Sequences
  import opened Text
  import opened JsValues

  /** How many recommendations are returned at most. */
  const RecommendationLimit: nat := 3

  /** The part of a profile row the scorer reads. `None` stands for a null or missing column. */
  datatype Profile = Profile(skills: Option<seq<string>>)

  /** A row of the jobs table: the free-text `requirements` column and every other column
      (id, title, the embedded company, ...), which the scorer passes through untouched. */
  datatype Job = Job(requirements: Option<string>, columns: map<string, JsValue>)

  /** A catalog job, all of its columns kept, with its score attached. */
  datatype ScoredJob = ScoredJob(job: Job, score: nat)

  function Min(a: nat, b: nat): nat
  {
    if a <= b then a else b
  }

  // ---------------------------------------------------------------------------------------
  // Tokenising the requirements: lower-cased, split at runs of commas, full stops and whitespace
  // ---------------------------------------------------------------------------------------

  /** The character class `[,.\s]`. */
  predicate IsSeparator(c: char)
  {
    c == ',' || c == '.' || IsWhitespace(c)
  }

  predicate SeparatorFree(t: string)
  {
    forall i :: 0 <= i < |t| ==> !IsSeparator(t[i])
  }

  predicate AllSeparators(t: string)
  {
    forall i :: 0 <= i < |t| ==> IsSeparator(t[i])
  }

  /** `s.split(/[,.\s]+/)`: the pieces between maximal runs of separators. A separator run at
      the start or at the end of `s` yields an empty first or last piece; no other piece is empty. */
  function Tokens(s: string): (r: seq<string>)
    ensures |r| >= 1
    ensures forall k :: 0 <= k < |r| ==> SeparatorFree(r[k])
    ensures forall k :: 0 < k < |r| - 1 ==> r[k] != []
    ensures s != [] && IsSeparator(s[0]) ==> |r| >= 2 && r[0] == []
    ensures s != [] && !IsSeparator(s[0]) ==> r[0] != [] && r[0][0] == s[0]
  {
    if s == [] then [[]]
    else
      var rest := Tokens(s[1..]);
      if !IsSeparator(s[0]) then [[s[0]] + rest[0]] + rest[1..]
      else if |s| > 1 && IsSeparator(s[1]) then rest
      else [[]] + rest
  }

  /** The separator runs the split consumes, in order: one between each pair of adjacent tokens. */
  function SeparatorRuns(s: string): (r: seq<string>)
    ensures |r| == |Tokens(s)| - 1
    ensures forall k :: 0 <= k < |r| ==> r[k] != [] && AllSeparators(r[k])
  {
    if s == [] then []
    else
      var rest := SeparatorRuns(s[1..]);
      if !IsSeparator(s[0]) then rest
      else if |s| > 1 && IsSeparator(s[1]) then [[s[0]] + rest[0]] + rest[1..]
      else [[s[0]]] + rest
  }

  /** A word without separators is a single token. */
  lemma {:induction false} TokensOfWord(w: string)
    requires w != [] && SeparatorFree(w)
    ensures Tokens(w) == [w]
  {
    assert !IsSeparator(w[0]);
    var rest := Tokens(w[1..]);
    assert Tokens(w) == [[w[0]] + rest[0]] + rest[1..];
    if |w| > 1 {
      TokensOfWord(w[1..]);
    } else {
      assert w[1..] == [];
    }
    assert [w[0]] + w[1..] == w;
  }

  /** A separator run followed by a word (or by nothing) yields one empty token first. */
  lemma {:induction false} TokensAfterRun(run: string, rest: string)
    requires run != [] && AllSeparators(run)
    requires rest == [] || !IsSeparator(rest[0])
    ensures Tokens(run + rest) == [[]] + Tokens(rest)
  {
    var s := run + rest;
    assert s[1..] == run[1..] + rest;
    if |run| > 1 {
      TokensAfterRun(run[1..], rest);
    }
  }

  /** A word followed by a separator run is the first token. */
  lemma {:induction false} TokensAfterWord(w: string, run: string, rest: string)
    requires SeparatorFree(w)
    requires run != [] && AllSeparators(run)
    requires rest == [] || !IsSeparator(rest[0])
    ensures Tokens(w + run + rest) == [w] + Tokens(rest)
  {
    if w == [] {
      assert w + run + rest == run + rest;
      TokensAfterRun(run, rest);
    } else {
      var s := w + run + rest;
      assert s[0] == w[0] && s[1..] == w[1..] + run + rest;
      TokensAfterWord(w[1..], run, rest);
      assert [w[0]] + w[1..] == w;
    }
  }

  /** Tokens and separator runs interleaved: `tokens[0] + runs[0] + tokens[1] + ...`. */
  function Weave(tokens: seq<string>, runs: seq<string>): string
    requires |runs| + 1 == |tokens|
  {
    if runs == [] then tokens[0] else tokens[0] + runs[0] + Weave(tokens[1..], runs[1..])
  }

  /** Prepending a character to the first token prepends it to the weave. */
  lemma WeaveConsToken(c: char, tokens: seq<string>, runs: seq<string>)
    requires |runs| + 1 == |tokens|
    ensures Weave([[c] + tokens[0]] + tokens[1..], runs) == [c] + Weave(tokens, runs)
  {
    var t := [[c] + tokens[0]] + tokens[1..];
    assert t[1..] == tokens[1..];
  }

  /** Prepending a character to the first run, after an empty first token, prepends it to the
      weave. */
  lemma WeaveConsRun(c: char, tokens: seq<string>, runs: seq<string>)
    requires |runs| + 1 == |tokens| && runs != [] && tokens[0] == []
    ensures Weave(tokens, [[c] + runs[0]] + runs[1..]) == [c] + Weave(tokens, runs)
  {
    var r := [[c] + runs[0]] + runs[1..];
    assert r[1..] == runs[1..];
  }

  /** A new one-character run in front of an empty token prepends that character. */
  lemma WeaveNewRun(c: char, tokens: seq<string>, runs: seq<string>)
    requires |runs| + 1 == |tokens|
    ensures Weave([[]] + tokens, [[c]] + runs) == [c] + Weave(tokens, runs)
  {
    assert ([[]] + tokens)[1..] == tokens && ([[c]] + runs)[1..] == runs;
  }

  /** The split loses nothing: the tokens, put back between the separator runs, are the input. */
  lemma {:induction false} TokensReassemble(s: string)
    ensures Weave(Tokens(s), SeparatorRuns(s)) == s
  {
    if s != [] {
      var c := s[0];
      var tokens, runs := Tokens(s[1..]), SeparatorRuns(s[1..]);
      TokensReassemble(s[1..]);
      assert s == [c] + s[1..];
      if !IsSeparator(c) {
        assert Tokens(s) == [[c] + tokens[0]] + tokens[1..];
        assert SeparatorRuns(s) == runs;
        WeaveConsToken(c, tokens, runs);
      } else if |s| > 1 && IsSeparator(s[1]) {
        assert Tokens(s) == tokens && tokens[0] == [];
        assert SeparatorRuns(s) == [[c] + runs[0]] + runs[1..];
        WeaveConsRun(c, tokens, runs);
      } else {
        assert Tokens(s) == [[]] + tokens;
        assert SeparatorRuns(s) == [[c]] + runs;
        WeaveNewRun(c, tokens, runs);
      }
    }
  }

  /** The converse: words that are separator-free (and non-empty except possibly the first
      and the last), put between non-empty separator runs, are split back into those words. */
  lemma {:induction false} TokensOfWeave(words: seq<string>, runs: seq<string>)
    requires |runs| + 1 == |words|
    requires forall k :: 0 <= k < |words| ==> SeparatorFree(words[k])
    requires forall k :: 0 < k < |words| - 1 ==> words[k] != []
    requires forall k :: 0 <= k < |runs| ==> runs[k] != [] && AllSeparators(runs[k])
    ensures Tokens(Weave(words, runs)) == words
  {
    if runs == [] {
      if words[0] != [] {
        TokensOfWord(words[0]);
      }
    } else {
      var rest := Weave(words[1..], runs[1..]);
      TokensOfWeave(words[1..], runs[1..]);
      if words[1] != [] {
        assert rest[0] == words[1][0];
      }
      TokensAfterWord(words[0], runs[0], rest);
      assert words == [words[0]] + words[1..];
    }
  }

  /** The preconditions of `TokensOfWeave`, as one predicate. */
  predicate WellWoven(words: seq<string>, runs: seq<string>)
  {
    && |runs| + 1 == |words|
    && (forall k :: 0 <= k < |words| ==> SeparatorFree(words[k]))
    && (forall k :: 0 < k < |words| - 1 ==> words[k] != [])
    && (forall k :: 0 <= k < |runs| ==> runs[k] != [] && AllSeparators(runs[k]))
  }

  // ---------------------------------------------------------------------------------------
  // Scoring one job
  // ---------------------------------------------------------------------------------------

  /** Keeps the skills whose lower-cased form is one of the tokens. */
  function MatchesToken(tokens: seq<string>): string -> bool
  {
    skill => Lower(skill) in tokens
  }

  /** The score of one job: the number of entries of `skills` (duplicates included) whose
      lower-case form is a token of the lower-cased requirements. A missing skill list, and a
      missing or empty requirements text (both falsy in the source), score 0. */
  function JobScore(skills: Option<seq<string>>, requirements: Option<string>): (score: nat)
    ensures skills.Some? ==> score <= |skills.value|
    ensures skills.None? || requirements.None? || requirements.value == [] ==> score == 0
  {
    if skills.Some? && requirements.Some? && requirements.value != [] then
      |Filter(skills.value, MatchesToken(Tokens(Lower(requirements.value))))|
    else 0
  }

  /** Whether one more skill entry is counted for this requirements text. */
  predicate SkillMatches(skill: string, requirements: Option<string>)
  {
    requirements.Some? && requirements.value != [] && Lower(skill) in Tokens(Lower(requirements.value))
  }

  /** Appending a skill raises the score by one when it matches and leaves it unchanged
      otherwise; in particular it never lowers a score. */
  lemma AppendSkillScore(skills: seq<string>, skill: string, requirements: Option<string>)
    ensures JobScore(Some(skills + [skill]), requirements)
         == JobScore(Some(skills), requirements) + (if SkillMatches(skill, requirements) then 1 else 0)
    ensures JobScore(Some(skills + [skill]), requirements) >= JobScore(Some(skills), requirements)
  {
    if requirements.Some? && requirements.value != [] {
      var keep := MatchesToken(Tokens(Lower(requirements.value)));
      FilterConcat(skills, [skill], keep);
      assert Filter([skill], keep) == (if keep(skill) then [skill] else []) + Filter([], keep);
    }
  }

  /** Reordering the skill list leaves every score unchanged. */
  lemma ScoreIgnoresSkillOrder(a: seq<string>, b: seq<string>, requirements: Option<string>)
    requires multiset(a) == multiset(b)
    ensures JobScore(Some(a), requirements) == JobScore(Some(b), requirements)
  {
    if requirements.Some? && requirements.value != [] {
      FilterCountPermutation(a, b, MatchesToken(Tokens(Lower(requirements.value))));
    }
  }

  /** Every skill lower-cased. */
  function LowerAll(skills: seq<string>): (r: seq<string>)
    ensures |r| == |skills|
  {
    seq(|skills|, i requires 0 <= i < |skills| => Lower(skills[i]))
  }

  lemma {:induction false} MatchCountIgnoresCase(skills: seq<string>, tokens: seq<string>)
    ensures |Filter(skills, MatchesToken(tokens))| == |Filter(LowerAll(skills), MatchesToken(tokens))|
  {
    if skills != [] {
      MatchCountIgnoresCase(skills[1..], tokens);
      assert LowerAll(skills)[1..] == LowerAll(skills[1..]);
      LowerIdempotent(skills[0]);
    }
  }

  /** Matching is case-insensitive on both sides: lower-casing the skills or the requirements
      changes no score. */
  lemma ScoreIgnoresCase(skills: seq<string>, requirements: string)
    ensures JobScore(Some(skills), Some(requirements)) == JobScore(Some(LowerAll(skills)), Some(requirements))
    ensures JobScore(Some(skills), Some(requirements)) == JobScore(Some(skills), Some(Lower(requirements)))
  {
    LowerIdempotent(requirements);
    MatchCountIgnoresCase(skills, Tokens(Lower(requirements)));
  }

  /** A skill matches a token that differs from it only in case. */
  lemma CaseInsensitiveExample()
    ensures JobScore(Some(["Python"]), Some("python")) == 1
  {
    assert Lower("Python") == "python";
    assert Lower("python") == "python";
    TokensOfWord("python");
    assert Filter(["Python"], MatchesToken(["python"])) == ["Python"];
  }

  /** Where the source differs from a distinct-skill reading: the empty token that a leading
      separator produces is matched by an empty skill entry. */
  lemma EmptySkillMatchesLeadingSeparator()
    ensures JobScore(Some([""]), Some(",go")) == 1
  {
    assert Lower(",go") == ",go";
    TokensOfWord("go");
    assert ",go"[1..] == "go";
    assert Tokens(",go") == ["", "go"];
    assert Filter([""], MatchesToken(["", "go"])) == [""];
  }

  // ---------------------------------------------------------------------------------------
  // Sorting by descending score with a stable sort
  // ---------------------------------------------------------------------------------------

  /** The order a stable sort by descending score produces between catalog positions `i` and
      `j`: a higher score first, and on equal scores the earlier catalog position first. */
  predicate Precedes(scores: seq<nat>, i: nat, j: nat)
    requires i < |scores| && j < |scores|
  {
    scores[i] > scores[j] || (scores[i] == scores[j] && i < j)
  }

  /** `order` lists catalog positions, each one before every position it precedes. */
  predicate RankedBy(scores: seq<nat>, order: seq<nat>)
  {
    && (forall k :: 0 <= k < |order| ==> order[k] < |scores|)
    && (forall a, b :: 0 <= a < b < |order| ==> Precedes(scores, order[a], order[b]))
  }

  /** Inserts position `i` into a ranked list of other positions. */
  function Insert(scores: seq<nat>, i: nat, order: seq<nat>): (r: seq<nat>)
    requires i < |scores| && RankedBy(scores, order) && i !in order
    ensures RankedBy(scores, r)
    ensures |r| == |order| + 1
    ensures forall x :: x in r <==> x == i || x in order
  {
    if order == [] then [i]
    else if Precedes(scores, i, order[0]) then [i] + order
    else
      var rest := Insert(scores, i, order[1..]);
      assert forall x :: x in rest ==> Precedes(scores, order[0], x) by {
        forall x | x in rest ensures Precedes(scores, order[0], x) {
          if x != i {
            var b :| 1 <= b < |order| && order[b] == x;
          }
        }
      }
      [order[0]] + rest
  }

  /** The ranking of the catalog positions `from .. |scores| - 1`. */
  function RankFrom(scores: seq<nat>, from: nat): (r: seq<nat>)
    requires from <= |scores|
    ensures RankedBy(scores, r)
    ensures |r| == |scores| - from
    ensures forall x :: x in r <==> from <= x < |scores|
    decreases |scores| - from
  {
    if from == |scores| then [] else Insert(scores, from, RankFrom(scores, from + 1))
  }

  /** The catalog positions in the order the stable sort puts them: a permutation of
      `0 .. |scores| - 1`, highest score first, ties in catalog order. */
  function Ranking(scores: seq<nat>): (r: seq<nat>)
    ensures RankedBy(scores, r)
    ensures |r| == |scores|
    ensures forall x :: x in r <==> 0 <= x < |scores|
  {
    RankFrom(scores, 0)
  }

  /** The score of each scored job. */
  function ScoresOf(scored: seq<ScoredJob>): (r: seq<nat>)
    ensures |r| == |scored|
  {
    seq(|scored|, i requires 0 <= i < |scored| => scored[i].score)
  }

  /** The stable sort by descending score. */
  function SortByScore(scored: seq<ScoredJob>): (r: seq<ScoredJob>)
    ensures |r| == |scored|
    ensures forall a, b :: 0 <= a < b < |r| ==> r[a].score >= r[b].score
  {
    var order := Ranking(ScoresOf(scored));
    seq(|scored|, k requires 0 <= k < |scored| => scored[order[k]])
  }

  // ---------------------------------------------------------------------------------------
  // The whole operation
  // ---------------------------------------------------------------------------------------

  /** The score of each catalog job. */
  function Scores(skills: Option<seq<string>>, jobs: seq<Job>): (r: seq<nat>)
    ensures |r| == |jobs|
  {
    seq(|jobs|, i requires 0 <= i < |jobs| => JobScore(skills, jobs[i].requirements))
  }

  /** Every catalog job with its score attached, in catalog order. */
  function ScoreJobs(skills: Option<seq<string>>, jobs: seq<Job>): (r: seq<ScoredJob>)
    ensures |r| == |jobs|
    ensures forall i :: 0 <= i < |jobs| ==> r[i].job == jobs[i] && r[i].score == JobScore(skills, jobs[i].requirements)
  {
    seq(|jobs|, i requires 0 <= i < |jobs| => ScoredJob(jobs[i], JobScore(skills, jobs[i].requirements)))
  }

  /** `getJobRecommendations`: `None` (the source's `null`) when the profile or the job list is
      missing; otherwise the first `min(3, |jobs|)` jobs of the catalog sorted by score. An
      empty catalog is a present, empty list. */
  function GetJobRecommendations(profile: Option<Profile>, jobs: Option<seq<Job>>): (r: Option<seq<ScoredJob>>)
    ensures r.None? <==> profile.None? || jobs.None?
    ensures r.Some? ==> |r.value| == Min(RecommendationLimit, |jobs.value|)
    ensures r.Some? ==> forall a, b :: 0 <= a < b < |r.value| ==> r.value[a].score >= r.value[b].score
  {
    if profile.None? || jobs.None? then None
    else
      var sorted := SortByScore(ScoreJobs(profile.value.skills, jobs.value));
      Some(sorted[..Min(RecommendationLimit, |sorted|)])
  }

  /** The catalog position that the k-th sorted job comes from. */
  function CatalogPositions(skills: Option<seq<string>>, jobs: seq<Job>): seq<nat>
  {
    Ranking(Scores(skills, jobs))
  }

  lemma SortedPositions(skills: Option<seq<string>>, jobs: seq<Job>)
    ensures var sorted := SortByScore(ScoreJobs(skills, jobs));
            var pos := CatalogPositions(skills, jobs);
            && |pos| == |jobs|
            && forall k :: 0 <= k < |sorted| ==> pos[k] < |jobs| && sorted[k] == ScoreJobs(skills, jobs)[pos[k]]
  {
    assert ScoresOf(ScoreJobs(skills, jobs)) == Scores(skills, jobs);
  }

  /** Every recommendation is a distinct catalog job, unchanged, with its own score attached. */
  lemma RecommendationsAreCatalogJobs(profile: Profile, jobs: seq<Job>)
    ensures var r := GetJobRecommendations(Some(profile), Some(jobs)).value;
            var pos := CatalogPositions(profile.skills, jobs);
            && |r| <= |pos|
            && (forall k :: 0 <= k < |r| ==>
                  pos[k] < |jobs| && r[k] == ScoredJob(jobs[pos[k]], JobScore(profile.skills, jobs[pos[k]].requirements)))
            && (forall a, b :: 0 <= a < b < |r| ==> pos[a] != pos[b])
  {
    SortedPositions(profile.skills, jobs);
  }

  /** Equal scores keep catalog order. */
  lemma TiesKeepCatalogOrder(profile: Profile, jobs: seq<Job>)
    ensures var r := GetJobRecommendations(Some(profile), Some(jobs)).value;
            var pos := CatalogPositions(profile.skills, jobs);
            && |r| <= |pos|
            && forall a, b :: 0 <= a < b < |r| && r[a].score == r[b].score ==> pos[a] < pos[b]
  {
    SortedPositions(profile.skills, jobs);
  }

  /** Top three: a catalog job that is left out scores no more than any job returned. */
  lemma RecommendationsAreTopScores(profile: Profile, jobs: seq<Job>, j: nat)
    requires j < |jobs|
    requires j !in CatalogPositions(profile.skills, jobs)[..Min(RecommendationLimit, |jobs|)]
    ensures var r := GetJobRecommendations(Some(profile), Some(jobs)).value;
            forall k :: 0 <= k < |r| ==> JobScore(profile.skills, jobs[j].requirements) <= r[k].score
  {
    var skills := profile.skills;
    var pos := CatalogPositions(skills, jobs);
    var scores := Scores(skills, jobs);
    var m := Min(RecommendationLimit, |jobs|);
    SortedPositions(skills, jobs);
    assert j in pos;
    var l :| 0 <= l < |pos| && pos[l] == j;
    assert l >= m;
    forall k | 0 <= k < m
      ensures scores[j] <= scores[pos[k]]
    {
      assert Precedes(scores, pos[k], pos[l]);
    }
  }

  /** Lower-case ASCII letters only, at least one of them. */
  predicate IsLowerWord(t: string)
  {
    t != [] && forall i :: 0 <= i < |t| ==> 'a' <= t[i] <= 'z'
  }

  /** Lower-case words between non-empty separator runs meet the preconditions of
      `TokensOfWeave`. */
  lemma LowerWordsAreWoven(words: seq<string>, runs: seq<string>)
    requires |runs| + 1 == |words|
    requires forall k :: 0 <= k < |words| ==> IsLowerWord(words[k])
    requires forall k :: 0 <= k < |runs| ==> runs[k] != [] && AllSeparators(runs[k])
    ensures WellWoven(words, runs)
  {
  }

  /** The score against a requirements text whose lower-cased form is `words` woven with
      separator runs: the number of skills whose lower-cased form is one of those words. */
  lemma ScoreOfWeave(skills: seq<string>, requirements: string, words: seq<string>, runs: seq<string>)
    requires WellWoven(words, runs)
    requires requirements != [] && Lower(requirements) == Weave(words, runs)
    ensures JobScore(Some(skills), Some(requirements)) == |Filter(skills, MatchesToken(words))|
  {
    TokensOfWeave(words, runs);
  }

  /** Which of the example skills `react` and `sql` a token list matches. */
  lemma ExampleSkillsMatch(words: seq<string>)
    ensures Filter(["react", "sql"], MatchesToken(words))
         == (if "react" in words then ["react"] else []) + (if "sql" in words then ["sql"] else [])
  {
    assert Lower("react") == "react" && Lower("sql") == "sql";
    assert Filter(["sql"], MatchesToken(words)) == (if "sql" in words then ["sql"] else []) + Filter([], MatchesToken(words));
  }

  // The three postings of the worked example below. Each requirements text is a parameter
  // fixed by the precondition, and its lower-cased form and its split are separate lemmas,
  // so that the verifier never has to evaluate the tokeniser on a literal.

  lemma ExampleReactNodeSqlText(requirements: string)
    requires requirements == "React, Node.js, SQL"
    ensures Lower(requirements) == "react, node.js, sql"
  {
  }

  lemma ExampleReactNodeSqlWords()
    ensures WellWoven(["react", "node", "js", "sql"], [", ", ".", ", "])
    ensures Weave(["react", "node", "js", "sql"], [", ", ".", ", "]) == "react, node.js, sql"
  {
    LowerWordsAreWoven(["react", "node", "js", "sql"], [", ", ".", ", "]);
  }

  lemma ExampleScoreReactNodeSql(requirements: string)
    requires requirements == "React, Node.js, SQL"
    ensures JobScore(Some(["react", "sql"]), Some(requirements)) == 2
  {
    var words, runs := ["react", "node", "js", "sql"], [", ", ".", ", "];
    ExampleReactNodeSqlText(requirements);
    ExampleReactNodeSqlWords();
    ScoreOfWeave(["react", "sql"], requirements, words, runs);
    ExampleSkillsMatch(words);
  }

  lemma ExampleJavaSpringText(requirements: string)
    requires requirements == "Java, Spring"
    ensures Lower(requirements) == "java, spring"
  {
  }

  lemma ExampleJavaSpringWords()
    ensures WellWoven(["java", "spring"], [", "])
    ensures Weave(["java", "spring"], [", "]) == "java, spring"
  {
    LowerWordsAreWoven(["java", "spring"], [", "]);
  }

  lemma ExampleScoreJavaSpring(requirements: string)
    requires requirements == "Java, Spring"
    ensures JobScore(Some(["react", "sql"]), Some(requirements)) == 0
  {
    var words, runs := ["java", "spring"], [", "];
    ExampleJavaSpringText(requirements);
    ExampleJavaSpringWords();
    ScoreOfWeave(["react", "sql"], requirements, words, runs);
    ExampleSkillsMatch(words);
  }

  lemma ExampleSqlAdminText(requirements: string)
    requires requirements == "SQL database admin"
    ensures Lower(requirements) == "sql database admin"
  {
  }

  lemma ExampleSqlAdminWords()
    ensures WellWoven(["sql", "database", "admin"], [" ", " "])
    ensures Weave(["sql", "database", "admin"], [" ", " "]) == "sql database admin"
  {
    LowerWordsAreWoven(["sql", "database", "admin"], [" ", " "]);
  }

  lemma ExampleScoreSqlAdmin(requirements: string)
    requires requirements == "SQL database admin"
    ensures JobScore(Some(["react", "sql"]), Some(requirements)) == 1
  {
    var words, runs := ["sql", "database", "admin"], [" ", " "];
    ExampleSqlAdminText(requirements);
    ExampleSqlAdminWords();
    ScoreOfWeave(["react", "sql"], requirements, words, runs);
    ExampleSkillsMatch(words);
  }

  lemma ExampleScoring(skills: seq<string>, a: Job, b: Job, c: Job)
    requires JobScore(Some(skills), a.requirements) == 2
    requires JobScore(Some(skills), b.requirements) == 0
    requires JobScore(Some(skills), c.requirements) == 1
    ensures ScoreJobs(Some(skills), [a, b, c]) == [ScoredJob(a, 2), ScoredJob(b, 0), ScoredJob(c, 1)]
  {
  }

  lemma ExampleSorting(a: ScoredJob, b: ScoredJob, c: ScoredJob)
    requires a.score == 2 && b.score == 0 && c.score == 1
    ensures SortByScore([a, b, c]) == [a, c, b]
  {
    var scores := [2, 0, 1];
    assert ScoresOf([a, b, c]) == scores;
    assert RankFrom(scores, 3) == [];
    assert RankFrom(scores, 2) == [2];
    assert RankFrom(scores, 1) == [2, 1];
  }

  /** Three postings scoring 2, 0 and 1 come back in the order 2, 1, 0, all three of them. */
  lemma ExampleRecommendation(skills: seq<string>, a: Job, b: Job, c: Job)
    requires JobScore(Some(skills), a.requirements) == 2
    requires JobScore(Some(skills), b.requirements) == 0
    requires JobScore(Some(skills), c.requirements) == 1
    ensures GetJobRecommendations(Some(Profile(Some(skills))), Some([a, b, c]))
         == Some([ScoredJob(a, 2), ScoredJob(c, 1), ScoredJob(b, 0)])
  {
    ExampleScoring(skills, a, b, c);
    ExampleSorting(ScoredJob(a, 2), ScoredJob(b, 0), ScoredJob(c, 1));
    var sorted := SortByScore(ScoreJobs(Some(skills), [a, b, c]));
    assert sorted[..Min(RecommendationLimit, |sorted|)] == sorted;
  }

  /** A worked example: skills `react` and `sql` against three postings scoring 2, 0 and 1;
      the result lists them by score, all three because the catalog has only three. */
  lemma WorkedExample(a: Job, b: Job, c: Job)
    requires a.requirements == Some("React, Node.js, SQL")
    requires b.requirements == Some("Java, Spring")
    requires c.requirements == Some("SQL database admin")
    ensures GetJobRecommendations(Some(Profile(Some(["react", "sql"]))), Some([a, b, c]))
         == Some([ScoredJob(a, 2), ScoredJob(c, 1), ScoredJob(b, 0)])
  {
    ExampleScoreReactNodeSql(a.requirements.value);
    ExampleScoreJavaSpring(b.requirements.value);
    ExampleScoreSqlAdmin(c.requirements.value);
    ExampleRecommendation(["react", "sql"], a, b, c);
  }

  /** An empty catalog gives an empty list, not `null`. */
  lemma EmptyCatalogGivesEmptyList(profile: Profile)
    ensures GetJobRecommendations(Some(profile), Some([])) == Some([])
  {
  }
}
