/**
 * The Redmine listener's decisions: which issue number a fact's activity
 * mentions, how a request to the server is put together, which issue statuses
 * are the default and the "in work" one, and when starting a fact moves its
 * issue to "in work". The server is an oracle: `lookup` answers an issue query,
 * and the activity and status lists are the server's answers.
 */
module Redmine {
  import opened Wrappers
  import opened Text
  import opened Facts
  import opened Listeners
  import opened Search

  const ShortName: string := "redmine"

  /** The declared configuration items, in prompting order (the source declares no sensitivity). */
  const ConfigValues: seq<ConfigItem> := [
    ConfigItem("server_url", false),
    ConfigItem("api_key", false),
    ConfigItem("version", false),
    ConfigItem("auto_start", false),
    ConfigItem("verify_ssl", false)
  ]

  /** The listener's section exists and holds `keys`. */
  predicate HasOptions(config: Sections, keys: set<string>) {
    ShortName in config && keys <= config[ShortName].Keys
  }

  /** The listener's declared keys are all present in its section. */
  predicate HasKeys(config: Sections) {
    HasOptions(config, {"server_url", "api_key", "version", "auto_start", "verify_ssl"})
  }

  /** Once the listener has configured the configuration, every option it reads is there. */
  lemma ConfiguredHasKeys(config: Sections, setup: string -> string)
    ensures HasKeys(Reconcile(config, Some(ShortName), ConfigValues, setup))
  {
    KeysOfMembers(ConfigValues);
    assert ConfigValues[0].key == "server_url" && ConfigValues[1].key == "api_key";
    assert ConfigValues[2].key == "version" && ConfigValues[3].key == "auto_start";
    assert ConfigValues[4].key == "verify_ssl";
  }

  // ---------------------------------------------------------------------------
  // Issue numbers: the pattern ([0-9]+)\  scanned left to right

  /** A digit run starting at `p` and followed by a space: where the run ends (the space's index). */
  function MatchAt(s: string, p: nat): (r: Option<nat>)
    requires p <= |s|
    ensures r.Some? ==> p < r.value < |s| && s[r.value] == ' '
    ensures r.Some? ==> AllDigits(s[p..r.value])
  {
    if p < |s| && IsDigit(s[p]) then
      var j := RunEnd(s, p, IsDigit);
      assert AllDigits(s[p..j]) by {
        forall i | 0 <= i < j - p ensures IsDigit(s[p..j][i]) {
          assert s[p..j][i] == s[p + i];
        }
      }
      if j < |s| && s[j] == ' ' then Some(j) else None
    else None
  }

  /** One or more digits and then a space. */
  predicate IsNumberThenSpace(t: string) {
    |t| >= 2 && t[|t| - 1] == ' ' && AllDigits(t[..|t| - 1])
  }

  /** Every digits-then-space text starting at `p` is the match there. */
  lemma MatchAtComplete(s: string, p: nat, q: nat)
    requires p < q <= |s| && IsNumberThenSpace(s[p..q])
    ensures MatchAt(s, p) == Some(q - 1)
  {
    var t := s[p..q];
    assert IsDigit(s[p]) by { assert t[0] == s[p]; }
    forall i | p <= i < q - 1 ensures IsDigit(s[i]) {
      assert s[i] == t[..|t| - 1][i - p];
    }
    assert s[q - 1] == ' ' by { assert t[|t| - 1] == s[q - 1]; }
  }

  /** An issue number's digits `[start, end)`; the space after it is at `end`. */
  datatype Span = Span(start: nat, end: nat)

  /** Non-overlapping leftmost matches from `p` on, as `findall` reports them. */
  function SpansFrom(s: string, p: nat): (r: seq<Span>)
    requires p <= |s|
    ensures forall i :: 0 <= i < |r| ==> p <= r[i].start < r[i].end < |s|
    ensures forall i :: 0 < i < |r| ==> r[i - 1].end < r[i].start
    decreases |s| - p
  {
    if p == |s| then []
    else
      match MatchAt(s, p)
      case Some(j) => [Span(p, j)] + SpansFrom(s, j + 1)
      case None => SpansFrom(s, p + 1)
  }

  /** A match preceded by a digit is also the match one position earlier: both end at the same space. */
  lemma MatchAtShift(s: string, p: nat)
    requires 0 < p <= |s|
    ensures IsDigit(s[p - 1]) && MatchAt(s, p).Some? ==> MatchAt(s, p - 1) == MatchAt(s, p)
  {
    if IsDigit(s[p - 1]) && MatchAt(s, p).Some? {
      RunEndInside(s, p - 1, p, IsDigit);
    }
  }

  /** `sp` is a maximal non-empty digit run of `s` directly followed by a space. */
  predicate IsRun(s: string, sp: Span) {
    && sp.start < sp.end < |s|
    && AllDigits(s[sp.start..sp.end]) && s[sp.end] == ' '
    && (sp.start == 0 || !IsDigit(s[sp.start - 1]))
  }

  /** The match at `p` is a maximal run when no match covers `p - 1`. */
  lemma MatchIsRun(s: string, p: nat)
    requires p < |s| && MatchAt(s, p).Some?
    requires p == 0 || !IsDigit(s[p - 1]) || MatchAt(s, p - 1).None?
    ensures IsRun(s, Span(p, MatchAt(s, p).value))
  {
    var j := MatchAt(s, p).value;
    if p > 0 {
      MatchAtShift(s, p);
    }
    forall i | 0 <= i < j - p ensures IsDigit(s[p..j][i]) {
      assert s[p..j][i] == s[p + i];
    }
  }

  /**
   * Each span is a maximal digit run followed by a space. `p` is either the
   * text's start, or follows a non-digit, or follows a failed match.
   */
  lemma {:induction false} SpansAreRuns(s: string, p: nat)
    requires p <= |s|
    requires p == 0 || !IsDigit(s[p - 1]) || MatchAt(s, p - 1).None?
    ensures forall sp :: sp in SpansFrom(s, p) ==> IsRun(s, sp)
    decreases |s| - p
  {
    if p < |s| {
      match MatchAt(s, p)
      case Some(j) =>
        MatchIsRun(s, p);
        SpansAreRuns(s, j + 1);
        assert SpansFrom(s, p) == [Span(p, j)] + SpansFrom(s, j + 1);
      case None =>
        SpansAreRuns(s, p + 1);
        assert SpansFrom(s, p) == SpansFrom(s, p + 1);
    }
  }

  /** No issue number starts at a position from `p` on that no span (with its space) covers. */
  lemma {:induction false} SpansLeftmost(s: string, p: nat, q: nat)
    requires p <= q < |s|
    requires forall sp :: sp in SpansFrom(s, p) ==> !(sp.start <= q <= sp.end)
    ensures MatchAt(s, q).None?
    decreases |s| - p
  {
    match MatchAt(s, p)
    case Some(j) =>
      assert SpansFrom(s, p) == [Span(p, j)] + SpansFrom(s, j + 1);
      assert SpansFrom(s, p)[0] == Span(p, j);
      forall sp | sp in SpansFrom(s, j + 1) ensures !(sp.start <= q <= sp.end) {
        assert sp in SpansFrom(s, p);
      }
      SpansLeftmost(s, j + 1, q);
    case None =>
      if p < q {
        assert SpansFrom(s, p) == SpansFrom(s, p + 1);
        SpansLeftmost(s, p + 1, q);
      }
  }

  /**
   * What the scanner reports: each span is a maximal, non-empty run of digits
   * directly followed by a space, and every digits-then-space text in the
   * input overlaps a span or its space.
   */
  lemma SpansSpec(s: string)
    ensures forall i :: 0 <= i < |SpansFrom(s, 0)| ==>
      var sp := SpansFrom(s, 0)[i];
      && sp.start < sp.end && AllDigits(s[sp.start..sp.end]) && s[sp.end] == ' '
      && (sp.start == 0 || !IsDigit(s[sp.start - 1]))
    ensures forall q, e :: 0 <= q < e <= |s| && IsNumberThenSpace(s[q..e]) ==>
      exists i :: 0 <= i < |SpansFrom(s, 0)| && SpansFrom(s, 0)[i].start <= q <= SpansFrom(s, 0)[i].end
  {
    var spans := SpansFrom(s, 0);
    SpansAreRuns(s, 0);
    forall i | 0 <= i < |spans|
      ensures spans[i].start < spans[i].end && AllDigits(s[spans[i].start..spans[i].end]) && s[spans[i].end] == ' '
      ensures spans[i].start == 0 || !IsDigit(s[spans[i].start - 1])
    {
      assert spans[i] in spans;
      assert IsRun(s, spans[i]);
    }
    forall q, e | 0 <= q < e <= |s| && IsNumberThenSpace(s[q..e])
      ensures exists i :: 0 <= i < |spans| && spans[i].start <= q <= spans[i].end
    {
      MatchAtComplete(s, q, e);
      if forall sp :: sp in spans ==> !(sp.start <= q <= sp.end) {
        SpansLeftmost(s, 0, q);
      }
    }
  }

  /**
   * The candidate issue numbers in a text, left to right
   * (`issue_from_title.findall`): each is the text of its span, a maximal
   * non-empty run of digits directly followed by a space, and every
   * digits-then-space text in the input overlaps one of them or its space.
   */
  function Candidates(s: string): (r: seq<string>)
    ensures |r| == |SpansFrom(s, 0)|
    ensures forall i :: 0 <= i < |r| ==>
      var sp := SpansFrom(s, 0)[i];
      && r[i] == s[sp.start..sp.end] && |r[i]| > 0 && AllDigits(r[i]) && s[sp.end] == ' '
      && (sp.start == 0 || !IsDigit(s[sp.start - 1]))
    ensures forall q, e :: 0 <= q < e <= |s| && IsNumberThenSpace(s[q..e]) ==>
      exists i :: 0 <= i < |r| && SpansFrom(s, 0)[i].start <= q <= SpansFrom(s, 0)[i].end
  {
    var spans := SpansFrom(s, 0);
    SpansSpec(s);
    seq(|spans|, i requires 0 <= i < |spans| => s[spans[i].start..spans[i].end])
  }

  // ---------------------------------------------------------------------------
  // Finding the issue of a fact

  /** An issue as the server returns it: its id and its current status id. */
  datatype Issue = Issue(id: int, statusId: int)

  /**
   * `__get_issue_from_fact`: only the activity's first candidate is looked up;
   * when the server does not know it the answer is `None`, without trying others.
   */
  function IssueFromFact(fact: Fact, lookup: string -> Option<Issue>): (r: Option<Issue>)
    ensures |Candidates(fact.activity)| == 0 ==> r.None?
    ensures |Candidates(fact.activity)| > 0 ==> r == lookup(Candidates(fact.activity)[0])
  {
    var cands := Candidates(fact.activity);
    if |cands| == 0 then None else lookup(cands[0])
  }

  /** Only the first candidate is looked up: the oracle's answers for the others never matter. */
  lemma OnlyFirstLookedUp(fact: Fact, lookup: string -> Option<Issue>, other: string -> Option<Issue>)
    requires |Candidates(fact.activity)| > 0 ==> lookup(Candidates(fact.activity)[0]) == other(Candidates(fact.activity)[0])
    ensures IssueFromFact(fact, lookup) == IssueFromFact(fact, other)
  {
  }

  /** Each reported number together with its space is a digits-then-space text. */
  lemma CandidatesAreNumbers(s: string)
    ensures forall i :: 0 <= i < |SpansFrom(s, 0)| ==>
      IsNumberThenSpace(s[SpansFrom(s, 0)[i].start..SpansFrom(s, 0)[i].end + 1])
  {
    var spans := SpansFrom(s, 0);
    SpansAreRuns(s, 0);
    forall i | 0 <= i < |spans| ensures IsNumberThenSpace(s[spans[i].start..spans[i].end + 1]) {
      assert spans[i] in spans;
      assert IsRun(s, spans[i]);
      RunThenSpace(s, spans[i].start, spans[i].end);
    }
  }

  lemma RunThenSpace(s: string, a: nat, b: nat)
    requires a < b < |s| && AllDigits(s[a..b]) && s[b] == ' '
    ensures IsNumberThenSpace(s[a..b + 1])
  {
    var t := s[a..b + 1];
    assert t[..|t| - 1] == s[a..b];
    assert t[|t| - 1] == s[b];
  }

  /** An activity without a digits-then-space number yields no issue. */
  lemma NoNumberNoIssue(fact: Fact, lookup: string -> Option<Issue>)
    requires forall q, e :: 0 <= q < e <= |fact.activity| ==> !IsNumberThenSpace(fact.activity[q..e])
    ensures IssueFromFact(fact, lookup).None?
  {
    CandidatesAreNumbers(fact.activity);
  }

  // ---------------------------------------------------------------------------
  // Requests to the server

  /** `url` with one `'/'` appended unless it already ends in one. */
  function WithTrailingSlash(url: string): (r: string)
    ensures |r| > 0 && r[|r| - 1] == '/'
    ensures r == url || r == url + "/"
    ensures r == url <==> |url| > 0 && url[|url| - 1] == '/'
  {
    if |url| > 0 && url[|url| - 1] == '/' then url else url + "/"
  }

  /** Adding the slash twice is adding it once. */
  lemma TrailingSlashIdempotent(url: string)
    ensures WithTrailingSlash(WithTrailingSlash(url)) == WithTrailingSlash(url)
  {
  }

  /** `True if value == 'y' else False`: only the exact text `'y'` turns verification on. */
  function VerifySsl(value: string): (b: bool)
    ensures b <==> |value| == 1 && value[0] == 'y'
  {
    value == "y"
  }

  /** The HTTP request `__request_resource` sends. */
  datatype Request = Request(
    httpMethod: string,
    url: string,
    apiKey: string,
    contentType: string,
    verify: bool,
    data: Option<string>)

  /** Builds the request for `resource`; the body goes along only with data on a put or a post. */
  method RequestResource(config: Sections, resource: string, httpMethod: string, data: Option<string>) returns (req: Request)
    requires HasOptions(config, {"api_key", "verify_ssl", "server_url"})
    ensures req.httpMethod == httpMethod
    ensures req.apiKey == config[ShortName]["api_key"] && req.contentType == "application/json"
    ensures req.verify <==> config[ShortName]["verify_ssl"] == "y"
    ensures req.data.Some? <==> data.Some? && (httpMethod == "put" || httpMethod == "post")
    ensures req.data.Some? ==> req.data == data
    ensures req.url == WithTrailingSlash(config[ShortName]["server_url"]) + resource
  {
    var section := config[ShortName];
    var body: Option<string> := None;
    if data.Some? && (httpMethod == "put" || httpMethod == "post") {
      body := data;
    }
    var url := section["server_url"];
    if !(|url| > 0 && url[|url| - 1] == '/') {
      url := url + "/";
    }
    req := Request(httpMethod, url + resource, section["api_key"], "application/json", VerifySsl(section["verify_ssl"]), body);
  }

  // ---------------------------------------------------------------------------
  // Issue statuses

  /** A status as the server lists it; `isDefault` is absent when the attribute is missing. */
  datatype IssueStatus = IssueStatus(id: int, name: string, isDefault: Option<bool>)

  predicate IsDefaultStatus(st: IssueStatus) {
    st.isDefault == Some(true)
  }

  predicate IsInWorkStatus(st: IssueStatus) {
    st.name == "In Bearbeitung" || st.name == "In Work"
  }

  /** The newly found status, or the one kept from before when none was found. */
  function OrElse(found: Option<IssueStatus>, previous: Option<IssueStatus>): Option<IssueStatus> {
    if found.Some? then found else previous
  }

  /** A time-entry activity as the server lists it. */
  datatype Activity = Activity(id: int, name: string)

  /** The activity table after recording `acts` in order: a later entry for the same id wins. */
  function RecordActivities(table: map<int, string>, acts: seq<Activity>): (r: map<int, string>)
    ensures r.Keys == table.Keys + set i | 0 <= i < |acts| :: acts[i].id
  {
    if |acts| == 0 then table
    else
      var a := acts[|acts| - 1];
      RecordActivities(table, acts[..|acts| - 1])[a.id := a.name]
  }

  /** Each id maps to the name of its last entry; ids with no entry keep their previous name. */
  lemma {:induction false} RecordActivitiesValues(table: map<int, string>, acts: seq<Activity>)
    ensures forall i :: 0 <= i < |acts| && (forall j :: i < j < |acts| ==> acts[j].id != acts[i].id) ==>
              RecordActivities(table, acts)[acts[i].id] == acts[i].name
    ensures forall id :: id in table && (forall i :: 0 <= i < |acts| ==> acts[i].id != id) ==>
              RecordActivities(table, acts)[id] == table[id]
  {
    if |acts| > 0 {
      var front := acts[..|acts| - 1];
      RecordActivitiesValues(table, front);
      forall i | 0 <= i < |acts| - 1 ensures front[i] == acts[i] { }
    }
  }

  // ---------------------------------------------------------------------------
  // The listener's state

  class RedmineListener {
    /** Time-entry activities by id. */
    var activities: map<int, string>
    var statusDefault: Option<IssueStatus>
    var statusInWork: Option<IssueStatus>
    /** The issue of the fact started last. */
    var issue: Option<Issue>
    /** Whether the client verifies HTTPS connections. */
    var verify: bool
    /** The issues saved back to the server, in order. */
    var saved: seq<Issue>

    constructor ()
      ensures activities == map[] && statusDefault == None && statusInWork == None
      ensures issue == None && !verify && saved == []
    {
      activities := map[];
      statusDefault := None;
      statusInWork := None;
      issue := None;
      verify := false;
      saved := [];
    }

    /** Picks the default and the in-work status; one that is not found keeps its previous value. */
    method FilterIssueStatuses(statuses: seq<IssueStatus>)
      modifies this
      ensures statusDefault == OrElse(FirstWhere(statuses, IsDefaultStatus), old(statusDefault))
      ensures statusInWork == OrElse(FirstWhere(statuses, IsInWorkStatus), old(statusInWork))
      ensures activities == old(activities) && issue == old(issue) && verify == old(verify) && saved == old(saved)
    {
      var d := FirstWhere(statuses, IsDefaultStatus);
      if d.Some? {
        statusDefault := d;
      }
      var w := FirstWhere(statuses, IsInWorkStatus);
      if w.Some? {
        statusInWork := w;
      }
    }

    /**
     * Sets up the client's verification flag, records the server's time-entry
     * activities in order, and picks the relevant statuses.
     */
    method Prepare(config: Sections, acts: seq<Activity>, statuses: seq<IssueStatus>)
      requires HasOptions(config, {"server_url", "api_key", "version", "verify_ssl"})
      modifies this
      ensures verify == VerifySsl(config[ShortName]["verify_ssl"])
      ensures activities == RecordActivities(old(activities), acts)
      ensures statusDefault == OrElse(FirstWhere(statuses, IsDefaultStatus), old(statusDefault))
      ensures statusInWork == OrElse(FirstWhere(statuses, IsInWorkStatus), old(statusInWork))
      ensures issue == old(issue) && saved == old(saved)
    {
      verify := VerifySsl(config[ShortName]["verify_ssl"]);
      for i := 0 to |acts|
        invariant activities == RecordActivities(old(activities), acts[..i])
        invariant statusDefault == old(statusDefault) && statusInWork == old(statusInWork)
        invariant issue == old(issue) && saved == old(saved)
        invariant verify == VerifySsl(config[ShortName]["verify_ssl"])
      {
        assert acts[..i + 1][..i] == acts[..i];
        activities := activities[acts[i].id := acts[i].name];
      }
      assert acts[..|acts|] == acts;
      FilterIssueStatuses(statuses);
    }

    /**
     * `on_fact_started`: with `auto_start` set to `'y'`, remembers the fact's
     * issue and, when its status is the default one, sets it to the in-work
     * status and saves it. `raised` reports that a status the comparison or the
     * update needs was never found (Python raises on the missing attribute).
     */
    method OnFactStarted(config: Sections, fact: Fact, lookup: string -> Option<Issue>) returns (raised: bool)
      requires HasOptions(config, {"auto_start"})
      modifies this
      ensures activities == old(activities) && statusDefault == old(statusDefault)
      ensures statusInWork == old(statusInWork) && verify == old(verify)
      ensures config[ShortName]["auto_start"] != "y" ==> issue == old(issue) && saved == old(saved) && !raised
      ensures config[ShortName]["auto_start"] == "y" ==>
        var found := IssueFromFact(fact, lookup);
        if found.None? then
          issue == None && saved == old(saved) && !raised
        else if statusDefault.None? then
          issue == found && saved == old(saved) && raised
        else if found.value.statusId != statusDefault.value.id then
          issue == found && saved == old(saved) && !raised
        else if statusInWork.None? then
          issue == found && saved == old(saved) && raised
        else
          var moved := found.value.(statusId := statusInWork.value.id);
          issue == Some(moved) && saved == old(saved) + [moved] && !raised
    {
      raised := false;
      if config[ShortName]["auto_start"] == "y" {
        issue := IssueFromFact(fact, lookup);
        if issue.None? {
          return;
        }
        if statusDefault.None? {
          raised := true;
          return;
        }
        if issue.value.statusId == statusDefault.value.id {
          if statusInWork.None? {
            raised := true;
            return;
          }
          issue := Some(issue.value.(statusId := statusInWork.value.id));
          saved := saved + [issue.value];
        }
      }
    }
  }
}
