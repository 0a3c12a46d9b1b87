/**
 * The Jira listener's decisions: which issue keys a fact mentions, which of
 * them the tracker confirms, whether and how an issue is moved to "Start
 * Progress", and the worklog entry written when a fact stops. The tracker is an
 * oracle: `confirms` says whether an issue lookup succeeds, `transitions` lists
 * an issue's available transitions.
 */
module Jira {
  import opened Wrappers
  import opened Text
  import opened Facts
  import opened Listeners
  import opened Search

  const ShortName: string := "jira"

  /** The declared configuration items, in prompting order. */
  const ConfigValues: seq<ConfigItem> := [
    ConfigItem("server_url", false),
    ConfigItem("username", false),
    ConfigItem("password", true),
    ConfigItem("auto_start", false)
  ]

  /** Only the password is declared sensitive. */
  lemma OnlyPasswordSensitive()
    ensures forall i :: 0 <= i < |ConfigValues| ==> (ConfigValues[i].sensitive <==> ConfigValues[i].key == "password")
  {
  }

  /** Once the listener has configured the configuration, every option it reads is there. */
  lemma ConfiguredHasOptions(config: Sections, setup: string -> string)
    ensures var r := Reconcile(config, Some(ShortName), ConfigValues, setup);
            forall key :: key in {"server_url", "username", "password", "auto_start"} ==> GetOption(r, ShortName, key).Some?
  {
    KeysOfMembers(ConfigValues);
    assert ConfigValues[0].key == "server_url" && ConfigValues[1].key == "username";
    assert ConfigValues[2].key == "password" && ConfigValues[3].key == "auto_start";
  }

  // ---------------------------------------------------------------------------
  // Issue keys: the pattern [A-Z][A-Z0-9]+-[0-9]+ scanned left to right

  predicate IsKeyChar(c: char) { IsUpper(c) || IsDigit(c) }

  /** `k` has the shape of an issue key with its dash at position `j`. */
  predicate KeyWithDashAt(k: string, j: int) {
    && 2 <= j < |k| - 1
    && IsUpper(k[0])
    && k[j] == '-'
    && (forall i :: 1 <= i < j ==> IsKeyChar(k[i]))
    && (forall i :: j < i < |k| ==> IsDigit(k[i]))
  }

  /** An upper-case letter, one or more upper-case letters or digits, a dash, one or more digits. */
  ghost predicate IsIssueKey(k: string) {
    exists j :: KeyWithDashAt(k, j)
  }

  /** Where the longest issue key starting at `p` ends, if one starts there. */
  function MatchAt(s: string, p: nat): (r: Option<nat>)
    requires p <= |s|
    ensures r.Some? ==> p < r.value <= |s|
  {
    if p < |s| && IsUpper(s[p]) then
      var j := RunEnd(s, p + 1, IsKeyChar);
      if p + 1 < j < |s| && s[j] == '-' then
        var e := RunEnd(s, j + 1, IsDigit);
        if j + 1 < e then Some(e) else None
      else None
    else None
  }

  /** A reported match is an issue key that cannot be extended by another digit. */
  lemma MatchAtSound(s: string, p: nat)
    requires p <= |s| && MatchAt(s, p).Some?
    ensures IsIssueKey(s[p..MatchAt(s, p).value])
    ensures MatchAt(s, p).value == |s| || !IsDigit(s[MatchAt(s, p).value])
  {
    var j := RunEnd(s, p + 1, IsKeyChar);
    var e := MatchAt(s, p).value;
    var k := s[p..e];
    assert KeyWithDashAt(k, j - p) by {
      forall i | 1 <= i < j - p ensures IsKeyChar(k[i]) {
        assert k[i] == s[p + i];
      }
      forall i | j - p < i < |k| ensures IsDigit(k[i]) {
        assert k[i] == s[p + i];
      }
    }
  }

  /** Every issue key starting at `p` is found there, and the match is at least as long. */
  lemma MatchAtComplete(s: string, p: nat, q: nat)
    requires p < q <= |s| && IsIssueKey(s[p..q])
    ensures MatchAt(s, p).Some? && q <= MatchAt(s, p).value
  {
    var k := s[p..q];
    var d :| KeyWithDashAt(k, d);
    assert IsUpper(s[p]) by { assert k[0] == s[p]; }
    var j := RunEnd(s, p + 1, IsKeyChar);
    forall i | p + 1 <= i < p + d ensures IsKeyChar(s[i]) {
      assert s[i] == k[i - p];
    }
    assert s[p + d] == '-' by { assert k[d] == s[p + d]; }
    assert j == p + d;
    var e := RunEnd(s, j + 1, IsDigit);
    forall i | j < i < q ensures IsDigit(s[i]) {
      assert s[i] == k[i - p];
    }
    assert q <= e;
  }

  /** An occurrence `[start, end)` of an issue key in the scanned text. */
  datatype Span = Span(start: nat, end: nat)

  /** Non-overlapping leftmost-longest matches from position `p` on, as `findall` reports them. */
  function SpansFrom(s: string, p: nat): (r: seq<Span>)
    requires p <= |s|
    ensures forall i :: 0 <= i < |r| ==> p <= r[i].start < r[i].end <= |s|
    ensures forall i :: 0 < i < |r| ==> r[i - 1].end <= r[i].start
    decreases |s| - p
  {
    if p == |s| then []
    else
      match MatchAt(s, p)
      case Some(e) => [Span(p, e)] + SpansFrom(s, e)
      case None => SpansFrom(s, p + 1)
  }

  /** Each reported span is the longest match at its start. */
  lemma {:induction false} SpansAreMatches(s: string, p: nat)
    requires p <= |s|
    ensures forall sp :: sp in SpansFrom(s, p) ==> MatchAt(s, sp.start) == Some(sp.end)
    decreases |s| - p
  {
    if p < |s| {
      match MatchAt(s, p)
      case Some(e) => SpansAreMatches(s, e);
      case None => SpansAreMatches(s, p + 1);
    }
  }

  /** No issue key starts at a position from `p` on that no reported span covers. */
  lemma {:induction false} SpansLeftmost(s: string, p: nat, q: nat)
    requires p <= q < |s|
    requires forall sp :: sp in SpansFrom(s, p) ==> !(sp.start <= q < sp.end)
    ensures MatchAt(s, q).None?
    decreases |s| - p
  {
    match MatchAt(s, p)
    case Some(e) =>
      assert SpansFrom(s, p) == [Span(p, e)] + SpansFrom(s, e);
      assert SpansFrom(s, p)[0] == Span(p, e);
      forall sp | sp in SpansFrom(s, e) ensures !(sp.start <= q < sp.end) {
        assert sp in SpansFrom(s, p);
      }
      SpansLeftmost(s, e, q);
    case None =>
      if p < q {
        assert SpansFrom(s, p) == SpansFrom(s, p + 1);
        SpansLeftmost(s, p + 1, q);
      }
  }

  /**
   * What the scanner reports: every span holds an issue key that is not
   * followed by a digit, and at every position no span covers, no issue key
   * starts.
   */
  lemma SpansSpec(s: string)
    ensures forall i :: 0 <= i < |SpansFrom(s, 0)| ==>
      var sp := SpansFrom(s, 0)[i];
      IsIssueKey(s[sp.start..sp.end]) && (sp.end == |s| || !IsDigit(s[sp.end]))
    ensures forall q, e :: 0 <= q < e <= |s| && IsIssueKey(s[q..e]) ==>
      exists i :: 0 <= i < |SpansFrom(s, 0)| && SpansFrom(s, 0)[i].start <= q < SpansFrom(s, 0)[i].end
  {
    var spans := SpansFrom(s, 0);
    SpansAreMatches(s, 0);
    forall i | 0 <= i < |spans|
      ensures IsIssueKey(s[spans[i].start..spans[i].end]) && (spans[i].end == |s| || !IsDigit(s[spans[i].end]))
    {
      assert spans[i] in spans;
      MatchAtSound(s, spans[i].start);
    }
    forall q, e | 0 <= q < e <= |s| && IsIssueKey(s[q..e])
      ensures exists i :: 0 <= i < |spans| && spans[i].start <= q < spans[i].end
    {
      MatchAtComplete(s, q, e);
      if forall sp :: sp in spans ==> !(sp.start <= q < sp.end) {
        SpansLeftmost(s, 0, q);
      }
    }
  }

  /**
   * The candidate issue keys in one text, left to right
   * (`issue_from_title.findall`): each is the text of its span, an issue key
   * that no further digit extends, and every issue key anywhere in the text
   * overlaps one of them.
   */
  function Candidates(s: string): (r: seq<string>)
    ensures |r| == |SpansFrom(s, 0)|
    ensures forall i :: 0 <= i < |r| ==>
      var sp := SpansFrom(s, 0)[i];
      r[i] == s[sp.start..sp.end] && IsIssueKey(r[i]) && (sp.end == |s| || !IsDigit(s[sp.end]))
    ensures forall q, e :: 0 <= q < e <= |s| && IsIssueKey(s[q..e]) ==>
      exists i :: 0 <= i < |r| && SpansFrom(s, 0)[i].start <= q < SpansFrom(s, 0)[i].end
  {
    var spans := SpansFrom(s, 0);
    SpansSpec(s);
    seq(|spans|, i requires 0 <= i < |spans| => s[spans[i].start..spans[i].end])
  }

  /** A text that is exactly one issue key yields just that key. */
  lemma SingleKey(k: string)
    requires IsIssueKey(k)
    ensures Candidates(k) == [k]
  {
    assert k[0..|k|] == k;
    MatchAtComplete(k, 0, |k|);
    assert SpansFrom(k, 0) == [Span(0, |k|)];
  }

  // ---------------------------------------------------------------------------
  // Finding the issue of a fact

  /** The texts searched: the activity, then the tags in order. */
  function Fields(fact: Fact): seq<string> {
    [fact.activity] + fact.tags
  }

  /** All candidates of the texts, text by text. */
  function AllCandidates(fields: seq<string>): seq<string> {
    if |fields| == 0 then [] else Candidates(fields[0]) + AllCandidates(fields[1..])
  }

  /** How many lookups the search makes: up to and including the first that succeeds. */
  function Probed(cands: seq<string>, confirms: string -> bool): (n: nat)
    ensures n <= |cands|
    ensures forall j :: 0 <= j < n - 1 ==> !confirms(cands[j])
    ensures n < |cands| ==> n > 0 && confirms(cands[n - 1])
  {
    if |cands| == 0 then 0
    else if confirms(cands[0]) then 1
    else 1 + Probed(cands[1..], confirms)
  }

  /** The outcome depends only on the lookups actually made: no later candidate is asked about. */
  lemma {:induction false} OnlyProbedMatter(cands: seq<string>, confirms: string -> bool, other: string -> bool)
    requires forall j :: 0 <= j < Probed(cands, confirms) ==> confirms(cands[j]) == other(cands[j])
    ensures FirstWhere(cands, other) == FirstWhere(cands, confirms)
    ensures Probed(cands, other) == Probed(cands, confirms)
  {
    if |cands| > 0 && !confirms(cands[0]) {
      forall j | 0 <= j < Probed(cands[1..], confirms) ensures confirms(cands[1..][j]) == other(cands[1..][j]) {
        assert cands[1..][j] == cands[j + 1];
      }
      OnlyProbedMatter(cands[1..], confirms, other);
    }
  }

  /**
   * The search as written: text by text, candidate by candidate, returning the
   * first candidate the tracker confirms; a failed lookup is skipped.
   */
  function IssueFromFields(fields: seq<string>, confirms: string -> bool): Option<string> {
    if |fields| == 0 then None
    else
      match FirstWhere(Candidates(fields[0]), confirms)
      case Some(k) => Some(k)
      case None => IssueFromFields(fields[1..], confirms)
  }

  /** The nested search is the first confirmed candidate over all texts in order. */
  lemma {:induction false} IssueFromFieldsIsFirst(fields: seq<string>, confirms: string -> bool)
    ensures IssueFromFields(fields, confirms) == FirstWhere(AllCandidates(fields), confirms)
  {
    if |fields| > 0 {
      IssueFromFieldsIsFirst(fields[1..], confirms);
      FirstWhereAppend(Candidates(fields[0]), AllCandidates(fields[1..]), confirms);
    }
  }

  lemma {:induction false} AllCandidatesAreKeys(fields: seq<string>)
    ensures forall c :: c in AllCandidates(fields) ==> IsIssueKey(c)
  {
    if |fields| > 0 {
      AllCandidatesAreKeys(fields[1..]);
    }
  }

  /**
   * The issue a fact refers to (`__issue_from_fact`): the first candidate over
   * the activity and then the tags that the tracker confirms. It is an issue
   * key, every candidate before it was rejected, and `None` means that no
   * candidate was confirmed.
   */
  function IssueFromFact(fact: Fact, confirms: string -> bool): (r: Option<string>)
    ensures r == FirstWhere(AllCandidates(Fields(fact)), confirms)
    ensures r.Some? ==> IsIssueKey(r.value) && confirms(r.value)
    ensures var cands := AllCandidates(Fields(fact));
            r.Some? ==> exists i :: 0 <= i < |cands| && cands[i] == r.value && forall j :: 0 <= j < i ==> !confirms(cands[j])
    ensures r.None? ==> forall c :: c in AllCandidates(Fields(fact)) ==> !confirms(c)
  {
    IssueFromFieldsIsFirst(Fields(fact), confirms);
    AllCandidatesAreKeys(Fields(fact));
    IssueFromFields(Fields(fact), confirms)
  }

  // ---------------------------------------------------------------------------
  // Starting an issue

  /** A workflow transition the tracker offers for an issue. */
  datatype Transition = Transition(id: string, name: string)

  /** A request to apply transition `transitionId` to `issue`. */
  datatype TransitionCall = TransitionCall(issue: string, transitionId: string)

  const StartProgress: string := "Start Progress"

  /** The calls made for the `'Start Progress'` transitions among `ts`, in order. */
  function StartCalls(issue: string, ts: seq<Transition>): (r: seq<TransitionCall>)
    ensures forall c :: c in r <==> c.issue == issue && exists t :: t in ts && t.name == StartProgress && t.id == c.transitionId
    ensures |r| <= |ts|
  {
    if |ts| == 0 then []
    else
      var front := StartCalls(issue, ts[..|ts| - 1]);
      var t := ts[|ts| - 1];
      assert forall u :: u in ts <==> u in ts[..|ts| - 1] || u == t by {
        assert ts == ts[..|ts| - 1] + [t];
      }
      if t.name == StartProgress then front + [TransitionCall(issue, t.id)] else front
  }

  /**
   * `on_fact_started`: only when `auto_start` is `'y'` and an issue is found,
   * applies every transition named `'Start Progress'` to it, in the order offered.
   */
  method OnFactStarted(config: Sections, fact: Fact, confirms: string -> bool, transitions: string -> seq<Transition>)
    returns (calls: seq<TransitionCall>)
    ensures GetOption(config, ShortName, "auto_start") != Some("y") ==> calls == []
    ensures IssueFromFact(fact, confirms).None? ==> calls == []
    ensures GetOption(config, ShortName, "auto_start") == Some("y") && IssueFromFact(fact, confirms).Some? ==>
      var issue := IssueFromFact(fact, confirms).value;
      calls == StartCalls(issue, transitions(issue))
  {
    calls := [];
    var autoStart := GetOption(config, ShortName, "auto_start");
    if autoStart == Some("y") {
      var found := IssueFromFact(fact, confirms);
      if found.None? {
        return;
      }
      var issue := found.value;
      var ts := transitions(issue);
      for i := 0 to |ts|
        invariant calls == StartCalls(issue, ts[..i])
      {
        assert ts[..i + 1][..i] == ts[..i];
        if ts[i].name == StartProgress {
          calls := calls + [TransitionCall(issue, ts[i].id)];
        }
      }
      assert ts[..|ts|] == ts;
    }
  }

  // ---------------------------------------------------------------------------
  // Logging work

  /** `'%d'` of a float truncates toward zero: the whole minutes of a duration. */
  function WholeMinutes(delta: Micros): (m: int)
    ensures 0 <= delta ==> 0 <= m && m * MicrosPerMinute <= delta < (m + 1) * MicrosPerMinute
    ensures delta < 0 ==> m <= 0 && (m - 1) * MicrosPerMinute < delta <= m * MicrosPerMinute
  {
    if delta >= 0 then delta / MicrosPerMinute else -((-delta) / MicrosPerMinute)
  }

  /** The worklog's time-spent text, `'%dm'`: it reads back as exactly the truncated minutes. */
  function TimeSpent(delta: Micros): (r: string)
    ensures |r| >= 2 && r[|r| - 1] == 'm'
    ensures ParseTimeSpent(r) == Some(WholeMinutes(delta))
  {
    var digits := IntToString(WholeMinutes(delta));
    assert (digits + "m")[..|digits|] == digits;
    digits + "m"
  }

  /** Reads a time-spent text back to its minutes. */
  function ParseTimeSpent(s: string): Option<int> {
    if |s| > 0 && s[|s| - 1] == 'm' then ParseInt(s[..|s| - 1]) else None
  }

  /** A worklog entry: issue, time spent, and the fact's description as comment. */
  datatype Worklog = Worklog(issue: string, timeSpent: string, comment: Option<string>)

  /**
   * `on_fact_stopped`: a worklog for the fact's issue, written only when an issue
   * was found (the source tests the key's truthiness; a found key is never empty).
   */
  function OnFactStopped(fact: Fact, confirms: string -> bool): (w: Option<Worklog>)
    ensures w.Some? <==> IssueFromFact(fact, confirms).Some?
    ensures w.Some? ==> w.value.issue == IssueFromFact(fact, confirms).value && confirms(w.value.issue)
    ensures w.Some? ==> ParseTimeSpent(w.value.timeSpent) == Some(WholeMinutes(fact.delta)) && w.value.comment == fact.description
  {
    var timeSpent := TimeSpent(fact.delta);
    var issue := IssueFromFact(fact, confirms);
    if issue.Some? && |issue.value| > 0 then
      Some(Worklog(issue.value, timeSpent, fact.description))
    else
      None
  }
}
