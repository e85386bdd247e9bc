/**
Diagnosis from check-run annotations: a job that failed before any step ran because an
environment gate held it back. What the provider answers is given.
*/
module Gates {
  import opened Regex
  import opened Text
  import opened Extraction
  import opened Diagnosis
  import Url

  datatype Annotation = Annotation(startLine: int, message: string)

  datatype Deployment = Deployment(originalEnvironment: string, environment: string)

  /** The provider's answers; `None` where a request fails or there is nothing. */
  datatype Provider = Provider(
    checkRunId: string -> Option<int>, annotations: int -> Option<seq<Annotation>>,
    deployment: int -> Option<Deployment>, policies: string -> Option<seq<string>>)

  // ----- The branch pattern -----

  datatype Gate = Gate(branch: string, environment: string)

  const OPENING: string := "Branch \""
  const MIDDLE: string := "\" is not allowed to deploy to "
  const CLOSING: string := " due to environment protection rules."

  /** The text the pattern matches with these two groups. */
  function Written(gate: Gate): string {
    OPENING + gate.branch + MIDDLE + gate.environment + CLOSING
  }

  /** What the two groups may hold. */
  predicate Groups(gate: Gate) {
    gate.branch != "" && '"' !in gate.branch && gate.environment != "" && ' ' !in gate.environment
  }

  datatype Captured = Captured(group: string, rest: string)

  /** The prefix, then a non-empty group up to the next `c`. */
  function Capture(s: string, prefix: string, c: char): Option<Captured> {
    if !(prefix <= s) then None
    else
      var r := s[|prefix|..];
      var group := Url.Before(r, c);
      if group == "" then None else Some(Captured(group, r[|group|..]))
  }

  /** The match that starts where `s` starts. */
  function GateAt(s: string): Option<Gate> {
    match Capture(s, OPENING, '"')
    case None => None
    case Some(first) =>
      match Capture(first.rest, MIDDLE, ' ')
      case None => None
      case Some(second) => if CLOSING <= second.rest then Some(Gate(first.group, second.group)) else None
  }

  /** The leftmost match. */
  function FindGate(s: string): Option<Gate> {
    if GateAt(s).Some? then GateAt(s)
    else if s == "" then None
    else FindGate(s[1..])
  }

  lemma BeforeGroup(group: string, rest: string, c: char)
    requires c !in group && rest != "" && rest[0] == c
    ensures Url.Before(group + rest, c) == group
  {
    Url.IndexOfAppend(group, rest, c);
    assert Url.IndexOf(rest, c) == 0;
  }

  lemma BeforeAvoids(s: string, c: char)
    ensures Url.Before(s, c) <= s && c !in Url.Before(s, c)
  {
    Url.IndexIn(s, c);
  }

  lemma CaptureExact(s: string, prefix: string, c: char, group: string, rest: string)
    requires rest != "" && rest[0] == c
    ensures Capture(s, prefix, c) == Some(Captured(group, rest)) <==>
            group != "" && c !in group && s == prefix + group + rest
  {
    hide Url.Before;
    if Capture(s, prefix, c) == Some(Captured(group, rest)) {
      var r := s[|prefix|..];
      BeforeAvoids(r, c);
      assert s == prefix + r && r == group + rest;
    }
    if group != "" && c !in group && s == prefix + group + rest {
      assert prefix <= s && s[|prefix|..] == group + rest;
      BeforeGroup(group, rest, c);
    }
  }

  /** The match at a place is the pattern's text with admissible groups, and there is only one. */
  lemma GateAtExact(s: string, branch: string, environment: string)
    ensures GateAt(s) == Some(Gate(branch, environment)) <==>
            && branch != "" && '"' !in branch && environment != "" && ' ' !in environment
            && "Branch \"" + branch + "\" is not allowed to deploy to " + environment + " due to environment protection rules." <= s
  {
    GateAtWritten(s, Gate(branch, environment));
  }

  lemma GateAtWritten(s: string, gate: Gate)
    ensures GateAt(s) == Some(gate) <==> Groups(gate) && Written(gate) <= s
  {
    GateAtPieces(s, gate, OPENING, MIDDLE, CLOSING);
  }

  lemma GateAtPieces(s: string, gate: Gate, opening: string, middle: string, closing: string)
    requires middle != "" && middle[0] == '"' && closing != "" && closing[0] == ' '
    ensures (exists first, second ::
               && Capture(s, opening, '"') == Some(first) && Capture(first.rest, middle, ' ') == Some(second)
               && closing <= second.rest && gate == Gate(first.group, second.group)) <==>
            Groups(gate) && opening + gate.branch + middle + gate.environment + closing <= s
  {
    hide Capture;
    var written := opening + gate.branch + middle + gate.environment + closing;
    if Groups(gate) && written <= s {
      var second := Captured(gate.environment, closing + s[|written|..]);
      var first := Captured(gate.branch, middle + gate.environment + second.rest);
      assert s == opening + first.group + first.rest;
      CaptureExact(s, opening, '"', first.group, first.rest);
      CaptureExact(first.rest, middle, ' ', second.group, second.rest);
    }
    forall first, second |
      && Capture(s, opening, '"') == Some(first) && Capture(first.rest, middle, ' ') == Some(second)
      && closing <= second.rest && gate == Gate(first.group, second.group)
      ensures Groups(gate) && written <= s
    {
      CaptureStarts(first.rest, middle, ' ');
      CaptureExact(first.rest, middle, ' ', second.group, second.rest);
      CaptureExact(s, opening, '"', first.group, first.rest);
      assert s == written + second.rest[|closing|..];
    }
  }

  lemma CaptureStarts(s: string, prefix: string, c: char)
    requires Capture(s, prefix, c).Some?
    ensures prefix <= s
  {
  }

  /** The search finds the first place with a match, and fails when there is none. */
  lemma {:induction false} FindGateFirst(s: string)
    ensures FindGate(s).None? ==> forall k :: 0 <= k <= |s| ==> GateAt(s[k..]).None?
    ensures FindGate(s).Some? ==>
              exists k :: 0 <= k <= |s| && GateAt(s[k..]) == FindGate(s)
                          && forall j :: 0 <= j < k ==> GateAt(s[j..]).None?
  {
    hide GateAt;
    assert s[0..] == s;
    if GateAt(s).None? && s != "" {
      FindGateFirst(s[1..]);
      assert forall k :: 1 <= k <= |s| ==> s[k..] == s[1..][k - 1..];
      if FindGate(s).Some? {
        var t := s[1..];
        var k :| 0 <= k <= |t| && GateAt(t[k..]) == FindGate(t) && forall j :: 0 <= j < k ==> GateAt(t[j..]).None?;
        assert s[k + 1..] == t[k..];
        forall j | 0 <= j < k + 1 ensures GateAt(s[j..]).None? {
          if j > 0 { assert s[j..] == t[j - 1..]; }
        }
      }
    }
  }

  // ----- The two kinds of gate -----

  predicate HasAt(s: string, k: nat, text: string) {
    k + |text| <= |s| && s[k..k + |text|] == text
  }

  /** `strings.Contains`. */
  predicate Contains(s: string, text: string) {
    exists k :: 0 <= k <= |s| && HasAt(s, k, text)
  }

  const PHRASES: seq<string> := ["environment protection rules", "not allowed to deploy", "deployment was rejected"]

  predicate ShowsProtection(message: string) {
    exists i :: 0 <= i < |PHRASES| && Contains(ToLower(message), PHRASES[i])
  }

  predicate FoldsAt(s: string, k: nat, text: string) {
    k + |text| <= |s| && forall i :: 0 <= i < |text| ==> FoldChar(s[k + i]) == text[i]
  }

  const APPROVALS: seq<string> :=
    ["review required", "required reviewers", "approved review", "not approved by required reviewers", "awaiting review"]

  /** "approval", something more on the same line, "required". */
  predicate ApprovalRequired(s: string) {
    exists i, j :: 0 <= i < |s| && i + 8 < j < |s| && FoldsAt(s, i, "approval") && FoldsAt(s, j, "required")
                   && '\n' !in s[i + 8..j]
  }

  predicate ShowsApproval(message: string) {
    || ApprovalRequired(message)
    || exists i, k :: 0 <= i < |APPROVALS| && 0 <= k <= |message| && FoldsAt(message, k, APPROVALS[i])
  }

  /** A message the branch pattern matches is evidence of a protection rule. */
  lemma GateShowsProtection(message: string)
    requires FindGate(message).Some?
    ensures ShowsProtection(message)
  {
    hide FindGate, GateAt, Contains, ToLower, Written, IsLowered;
    FindGateFirst(message);
    var k :| 0 <= k <= |message| && GateAt(message[k..]) == FindGate(message);
    var gate := FindGate(message).value;
    GateAtWritten(message[k..], gate);
    WrittenPhrase(gate, PHRASES[0]);
    var before :| before + PHRASES[0] <= Written(gate);
    LowerPhrase(PHRASES[0]);
    ContainsLowered(message, k, before, PHRASES[0]);
  }

  lemma WrittenPhrase(gate: Gate, phrase: string)
    requires phrase == PHRASES[0]
    ensures exists before: string :: before + phrase <= Written(gate)
  {
    ClosingPhrase();
    Within(OPENING + gate.branch + MIDDLE + gate.environment, " due to ", phrase, ".");
  }

  lemma ClosingPhrase()
    ensures CLOSING == " due to " + PHRASES[0] + "."
  {
  }

  lemma Within(head: string, due: string, phrase: string, tail: string)
    ensures head + due + phrase <= head + (due + phrase + tail)
  {
    assert head + (due + phrase + tail) == head + due + phrase + tail;
  }

  predicate IsLowered(s: string) {
    forall i :: 0 <= i < |s| ==> LowerChar(s[i]) == s[i]
  }

  lemma ContainsLowered(message: string, k: nat, before: string, phrase: string)
    requires k <= |message| && before + phrase <= message[k..]
    requires IsLowered(phrase)
    ensures Contains(ToLower(message), phrase)
  {
    hide ToLower, IsLowered, HasAt, Contains;
    var p := k + |before|;
    PieceOf(message, k, before, phrase);
    LoweredPiece(message, p, phrase);
    ContainsPiece(ToLower(message), p, phrase);
  }

  lemma ContainsPiece(s: string, p: nat, piece: string)
    requires HasAt(s, p, piece)
    ensures Contains(s, piece)
  {
  }

  lemma LoweredPiece(s: string, p: nat, phrase: string)
    requires HasAt(s, p, phrase) && IsLowered(phrase)
    ensures HasAt(ToLower(s), p, phrase)
  {
    hide LowerChar;
    var piece := s[p..p + |phrase|];
    assert forall i :: 0 <= i < |phrase| ==> piece[i] == s[p + i];
    assert ToLower(s)[p..p + |phrase|] == phrase;
  }

  lemma PieceOf(s: string, k: nat, before: string, piece: string)
    requires k <= |s| && before + piece <= s[k..]
    ensures HasAt(s, k + |before|, piece)
  {
    var t := before + piece;
    assert s[k..][..|t|] == t;
    assert t[|before|..] == piece;
  }

  lemma LowerPhrase(phrase: string)
    requires phrase == PHRASES[0]
    ensures IsLowered(phrase)
  {
  }

  // ----- Reading the annotations -----

  function Message(a: Annotation): string { TrimSpace(a.message) }

  function Reference(a: Annotation): EvidenceRef {
    EvidenceRef("check_run_annotation", a.startLine, Message(a))
  }

  function References(annotations: seq<Annotation>): seq<EvidenceRef> {
    if annotations == [] then []
    else
      var last := annotations[|annotations| - 1];
      References(annotations[..|annotations| - 1]) + (if Message(last) == "" then [] else [Reference(last)])
  }

  predicate NamesGate(a: Annotation) { Message(a) != "" && FindGate(Message(a)).Some? }

  /** The groups of the last annotation that matches the branch pattern; empty when none does. */
  function LastGate(annotations: seq<Annotation>): Gate {
    if annotations == [] then Gate("", "")
    else
      var last := annotations[|annotations| - 1];
      if NamesGate(last) then FindGate(Message(last)).value else LastGate(annotations[..|annotations| - 1])
  }

  function FirstNonEmpty(a: string, b: string): string {
    if !Blank(a) then a else if !Blank(b) then b else ""
  }

  method ReadAnnotations(annotations: seq<Annotation>) returns (evidence: seq<EvidenceRef>, branch: string, environment: string)
    ensures evidence == References(annotations) && Gate(branch, environment) == LastGate(annotations)
  {
    hide *;
    evidence, branch, environment := [], "", "";
    assert annotations[..0] == [];
    NoAnnotations();
    for i := 0 to |annotations|
      invariant evidence == References(annotations[..i]) && Gate(branch, environment) == LastGate(annotations[..i])
    {
      AnnotationStep(annotations, i);
      var message := Message(annotations[i]);
      if message == "" { continue; }
      evidence := evidence + [EvidenceRef("check_run_annotation", annotations[i].startLine, message)];
      var matched := FindGate(message);
      if matched.Some? {
        branch, environment := matched.value.branch, matched.value.environment;
      }
    }
    assert annotations[..|annotations|] == annotations;
  }

  lemma NoAnnotations()
    ensures References([]) == [] && LastGate([]) == Gate("", "")
  {
  }

  lemma AnnotationStep(annotations: seq<Annotation>, i: nat)
    requires i < |annotations|
    ensures var a := annotations[i];
            && References(annotations[..i + 1]) ==
               (if Message(a) == "" then References(annotations[..i])
                else References(annotations[..i]) + [EvidenceRef("check_run_annotation", a.startLine, Message(a))])
            && LastGate(annotations[..i + 1]) ==
               (if Message(a) != "" && FindGate(Message(a)).Some? then FindGate(Message(a)).value
                else LastGate(annotations[..i]))
  {
    hide FindGate, TrimSpace;
    assert annotations[..i + 1][..i] == annotations[..i];
  }

  /** The evidence is what a filter over the annotations gives: piecewise, in order. */
  lemma {:induction false} ReferencesAppend(a: seq<Annotation>, b: seq<Annotation>)
    ensures References(a + b) == References(a) + References(b)
  {
    hide Message;
    if b == [] {
      assert a + b == a;
    } else {
      var n := |b| - 1;
      assert (a + b)[..|a| + n] == a + b[..n];
      ReferencesAppend(a, b[..n]);
    }
  }

  /** Exactly the non-blank messages, trimmed, are evidence. */
  lemma {:induction false} ReferencesExact(annotations: seq<Annotation>, e: EvidenceRef)
    ensures e in References(annotations) <==> exists a :: a in annotations && !Blank(a.message) && e == Reference(a)
  {
    hide TrimSpace;
    if annotations != [] {
      var n := |annotations| - 1;
      ReferencesExact(annotations[..n], e);
      assert annotations == annotations[..n] + [annotations[n]];
    }
  }

  predicate LastNaming(annotations: seq<Annotation>, i: nat) {
    i < |annotations| && NamesGate(annotations[i]) && forall j :: i < j < |annotations| ==> !NamesGate(annotations[j])
  }

  /** Branch and environment come from the last matching annotation, and both are non-empty. */
  lemma {:induction false} LastGateIsLast(annotations: seq<Annotation>, i: nat)
    requires LastNaming(annotations, i)
    ensures FindGate(Message(annotations[i])) == Some(LastGate(annotations)) && Groups(LastGate(annotations))
  {
    hide FindGate, Message, Groups;
    var n := |annotations| - 1;
    if i == n {
      FoundGroups(Message(annotations[n]));
    } else {
      LastGateIsLast(annotations[..n], i);
    }
  }

  lemma {:induction false} GateIsNamed(annotations: seq<Annotation>)
    ensures LastGate(annotations) == Gate("", "") || exists i: nat :: LastNaming(annotations, i)
    ensures (forall a :: a in annotations ==> !NamesGate(a)) ==> LastGate(annotations) == Gate("", "")
  {
    hide NamesGate;
    if annotations != [] {
      var n := |annotations| - 1;
      GateIsNamed(annotations[..n]);
      if NamesGate(annotations[n]) {
        assert LastNaming(annotations, n);
      } else if i: nat :| LastNaming(annotations[..n], i) {
        assert LastNaming(annotations, i);
      }
    }
  }

  lemma FoundGroups(message: string)
    requires FindGate(message).Some?
    ensures Groups(FindGate(message).value)
  {
    FindGateFirst(message);
    hide FindGate, GateAt;
    var k :| 0 <= k <= |message| && GateAt(message[k..]) == FindGate(message);
    GateAtWritten(message[k..], FindGate(message).value);
  }

  // ----- The diagnosis of one job -----

  datatype Kind = Protection | Approval

  datatype GateDiagnosis = GateDiagnosis(
    kind: Kind, category: string, branch: string, environment: string, policies: seq<string>,
    confidence: int, evidence: seq<EvidenceRef>, impactedJobs: seq<string>)

  const SOMEWHERE: string := "the target environment"

  predicate Eligible(job: Job) {
    EqualFold(job.conclusion, "failure") && job.steps == 0 && !Blank(job.checkRunUrl)
  }

  /** The annotations that can be read for a job; none when it is not eligible or a request fails. */
  function AnnotationsOf(provider: Provider, job: Job): seq<Annotation> {
    if !Eligible(job) then []
    else
      match provider.checkRunId(job.checkRunUrl)
      case None => []
      case Some(id) => provider.annotations(id).Or([])
  }

  ghost predicate Shows(annotations: seq<Annotation>, kind: Kind) {
    exists a :: a in annotations && Message(a) != "" &&
                if kind == Protection then ShowsProtection(Message(a)) else ShowsApproval(Message(a))
  }

  /** Some annotation of the job shows a gate. */
  ghost predicate Gated(provider: Provider, job: Job) {
    var annotations := AnnotationsOf(provider, job);
    Shows(annotations, Protection) || Shows(annotations, Approval)
  }

  function EnvironmentFor(provider: Provider, id: int, annotations: seq<Annotation>): string {
    if LastGate(annotations).environment != "" then LastGate(annotations).environment
    else
      var known := match provider.deployment(id)
        case None => ""
        case Some(d) => FirstNonEmpty(d.originalEnvironment, d.environment);
      if known == "" then SOMEWHERE else known
  }

  function PolicyNames(names: seq<string>): seq<string> {
    if names == [] then []
    else PolicyNames(names[..|names| - 1]) + (if Blank(names[|names| - 1]) then [] else [names[|names| - 1]])
  }

  function PoliciesFor(provider: Provider, environment: string): seq<string> {
    if environment == SOMEWHERE then [] else PolicyNames(provider.policies(environment).Or([]))
  }

  /** The diagnosis of a gated job; a protection rule takes precedence over an approval. */
  ghost function DiagnosisFor(provider: Provider, job: Job): GateDiagnosis {
    var annotations := AnnotationsOf(provider, job);
    var id := provider.checkRunId(job.checkRunUrl).Or(0);
    var branch := if LastGate(annotations).branch == "" then job.headBranch else LastGate(annotations).branch;
    var environment := EnvironmentFor(provider, id, annotations);
    if Shows(annotations, Protection) then
      GateDiagnosis(Protection, "config_error", branch, environment, PoliciesFor(provider, environment), 94,
                    References(annotations), [job.name])
    else
      GateDiagnosis(Approval, "config_error", branch, environment, [], 92, References(annotations), [job.name])
  }

  /** The diagnosis of the earliest gated job. */
  ghost function FirstDiagnosis(provider: Provider, jobs: seq<Job>): Option<GateDiagnosis> {
    if jobs == [] then None
    else if Gated(provider, jobs[0]) then Some(DiagnosisFor(provider, jobs[0]))
    else FirstDiagnosis(provider, jobs[1..])
  }

  method ContainsProtection(evidence: seq<EvidenceRef>) returns (found: bool)
    ensures found <==> exists e :: e in evidence && ShowsProtection(e.snippet)
  {
    for i := 0 to |evidence|
      invariant forall j :: 0 <= j < i ==> !ShowsProtection(evidence[j].snippet)
    {
      if ShowsProtection(evidence[i].snippet) { return true; }
    }
    found := false;
  }

  method ContainsApproval(evidence: seq<EvidenceRef>) returns (found: bool)
    ensures found <==> exists e :: e in evidence && ShowsApproval(e.snippet)
  {
    for i := 0 to |evidence|
      invariant forall j :: 0 <= j < i ==> !ShowsApproval(evidence[j].snippet)
    {
      if ShowsApproval(evidence[i].snippet) { return true; }
    }
    found := false;
  }

  lemma ShownByReferences(annotations: seq<Annotation>)
    ensures Shows(annotations, Protection) <==> exists e :: e in References(annotations) && ShowsProtection(e.snippet)
    ensures Shows(annotations, Approval) <==> exists e :: e in References(annotations) && ShowsApproval(e.snippet)
  {
    hide TrimSpace, ShowsProtection, ShowsApproval, References;
    forall e ensures e in References(annotations) <==> exists a :: a in annotations && !Blank(a.message) && e == Reference(a) {
      ReferencesExact(annotations, e);
    }
    forall a | a in annotations && !Blank(a.message) ensures Reference(a) in References(annotations) {
    }
  }

  method KeepNamed(names: seq<string>) returns (kept: seq<string>)
    ensures kept == PolicyNames(names)
  {
    hide TrimSpace;
    kept := [];
    for i := 0 to |names|
      invariant kept == PolicyNames(names[..i])
    {
      assert names[..i + 1][..i] == names[..i];
      if TrimSpace(names[i]) != "" { kept := kept + [names[i]]; }
    }
    assert names[..|names|] == names;
  }

  /** The body of the loop over the jobs. */
  method DiagnoseJob(provider: Provider, job: Job) returns (r: Option<GateDiagnosis>)
    ensures r == if Gated(provider, job) then Some(DiagnosisFor(provider, job)) else None
  {
    hide EqualFold, TrimSpace, ShowsProtection, ShowsApproval, References, LastGate, PolicyNames, FirstNonEmpty, Message;
    if !EqualFold(job.conclusion, "failure") { return None; }
    if job.steps > 0 || TrimSpace(job.checkRunUrl) == "" { return None; }
    var checkRunId := provider.checkRunId(job.checkRunUrl);
    if checkRunId.None? { return None; }
    var annotations := provider.annotations(checkRunId.value);
    if annotations.None? || annotations.value == [] { return None; }
    assert AnnotationsOf(provider, job) == annotations.value;

    var evidence, branch, environment := ReadAnnotations(annotations.value);
    ShownByReferences(annotations.value);
    if evidence == [] { return None; }

    var deployment := provider.deployment(checkRunId.value);
    if deployment.Some? && environment == "" {
      environment := FirstNonEmpty(deployment.value.originalEnvironment, deployment.value.environment);
    }
    if branch == "" { branch := job.headBranch; }
    if environment == "" { environment := SOMEWHERE; }
    assert environment == EnvironmentFor(provider, checkRunId.value, annotations.value);

    var protection := ContainsProtection(evidence);
    if !protection {
      var approval := ContainsApproval(evidence);
      if approval {
        return Some(GateDiagnosis(Approval, "config_error", branch, environment, [], 92, evidence, [job.name]));
      }
      return None;
    }
    var policies := [];
    if environment != SOMEWHERE {
      policies := provider.policies(environment).Or([]);
    } else {
      assert PolicyNames([]) == [] by { hide *; NoPolicies(); }
    }
    var policyNames := KeepNamed(policies);
    r := Some(GateDiagnosis(Protection, "config_error", branch, environment, policyNames, 94, evidence, [job.name]));
  }

  lemma NoPolicies()
    ensures PolicyNames([]) == []
  {
  }

  method DiagnoseMetadataFailure(provider: Provider, jobs: seq<Job>) returns (r: Option<GateDiagnosis>)
    ensures r == FirstDiagnosis(provider, jobs)
  {
    hide Gated, DiagnosisFor;
    for i := 0 to |jobs|
      invariant FirstDiagnosis(provider, jobs) == FirstDiagnosis(provider, jobs[i..])
    {
      assert jobs[i..][1..] == jobs[i + 1..];
      r := DiagnoseJob(provider, jobs[i]);
      if r.Some? { return; }
    }
    r := None;
  }

  // ----- Laws -----

  ghost predicate Earliest(provider: Provider, jobs: seq<Job>, i: nat) {
    i < |jobs| && Gated(provider, jobs[i]) && forall j :: 0 <= j < i ==> !Gated(provider, jobs[j])
  }

  /** There is a diagnosis exactly when some job is gated, and it is that of the earliest one. */
  lemma {:induction false} EarliestIsDiagnosed(provider: Provider, jobs: seq<Job>)
    ensures FirstDiagnosis(provider, jobs).Some? <==> exists i :: 0 <= i < |jobs| && Gated(provider, jobs[i])
    ensures forall i: nat :: Earliest(provider, jobs, i) ==> FirstDiagnosis(provider, jobs) == Some(DiagnosisFor(provider, jobs[i]))
  {
    hide Gated, DiagnosisFor;
    if jobs != [] && !Gated(provider, jobs[0]) {
      var rest := jobs[1..];
      EarliestIsDiagnosed(provider, rest);
      forall i: nat | Earliest(provider, jobs, i) ensures FirstDiagnosis(provider, jobs) == Some(DiagnosisFor(provider, jobs[i])) {
        assert forall j :: 0 <= j < i - 1 ==> rest[j] == jobs[j + 1];
        assert Earliest(provider, rest, i - 1);
      }
      if i :| 0 <= i < |jobs| && Gated(provider, jobs[i]) { assert rest[i - 1] == jobs[i]; }
    }
  }

  /** A gated job failed, ran no step, and left evidence. */
  lemma GatedJobs(provider: Provider, job: Job)
    requires Gated(provider, job)
    ensures EqualFold(job.conclusion, "failure") && job.steps == 0
    ensures provider.checkRunId(job.checkRunUrl).Some? && DiagnosisFor(provider, job).evidence != []
  {
    hide EqualFold, TrimSpace, ShowsProtection, ShowsApproval, References, Message;
    ShownByReferences(AnnotationsOf(provider, job));
  }

  /** When an annotation names branch and environment, the diagnosis is a protection rule
      with those; an approval always reports the job's own branch. */
  lemma NamedGateIsProtection(provider: Provider, job: Job)
    requires Gated(provider, job)
    ensures var d, gate := DiagnosisFor(provider, job), LastGate(AnnotationsOf(provider, job));
            && (gate.branch != "" ==> d.kind == Protection && d.branch == gate.branch && d.environment == gate.environment)
            && (d.kind == Approval ==> d.branch == job.headBranch && d.policies == [])
            && (gate.branch == "" ==> d.branch == job.headBranch)
  {
    hide EqualFold, TrimSpace, ShowsProtection, ShowsApproval, References, LastGate, FindGate, GateAt, AnnotationsOf, PolicyNames;
    var annotations := AnnotationsOf(provider, job);
    GateIsNamed(annotations);
    if i: nat :| LastNaming(annotations, i) {
      LastGateIsLast(annotations, i);
      GateShowsProtection(Message(annotations[i]));
      assert Shows(annotations, Protection);
    }
  }

  // ----- What the parts mean -----

  /** Evidence of a protection rule is one of three phrases, in any case. */
  lemma ProtectionMeans(message: string)
    ensures ShowsProtection(message) <==>
            || Contains(ToLower(message), "environment protection rules")
            || Contains(ToLower(message), "not allowed to deploy")
            || Contains(ToLower(message), "deployment was rejected")
  {
    hide Contains, ToLower;
    assert PHRASES[0] == "environment protection rules" && PHRASES[1] == "not allowed to deploy" && PHRASES[2] == "deployment was rejected";
    assert |PHRASES| == 3;
  }

  ghost predicate FoldsIn(message: string, text: string) {
    exists k :: 0 <= k <= |message| && FoldsAt(message, k, text)
  }

  /** Evidence of an approval gate is one of five phrases up to case, or "approval" with
      "required" after it on the same line. */
  lemma ApprovalMeans(message: string)
    ensures ShowsApproval(message) <==>
            || FoldsIn(message, "review required") || FoldsIn(message, "required reviewers")
            || FoldsIn(message, "approved review") || FoldsIn(message, "not approved by required reviewers")
            || FoldsIn(message, "awaiting review")
            || exists i, j :: 0 <= i < |message| && i + 8 < j < |message| && FoldsAt(message, i, "approval") &&
                              FoldsAt(message, j, "required") && '\n' !in message[i + 8..j]
  {
    hide FoldsAt, ApprovalRequired;
    assert |APPROVALS| == 5;
    ApprovalPhrases();
    AnyApproval(message, APPROVALS);
    LineApproval(message);
  }

  lemma ApprovalPhrases()
    ensures APPROVALS == ["review required", "required reviewers", "approved review", "not approved by required reviewers", "awaiting review"]
  {
  }

  lemma AnyApproval(message: string, texts: seq<string>)
    requires |texts| == 5
    ensures (exists i, k :: 0 <= i < |texts| && 0 <= k <= |message| && FoldsAt(message, k, texts[i])) <==>
            || FoldsIn(message, texts[0]) || FoldsIn(message, texts[1]) || FoldsIn(message, texts[2])
            || FoldsIn(message, texts[3]) || FoldsIn(message, texts[4])
  {
    hide FoldsAt;
  }

  lemma LineApproval(message: string)
    ensures ApprovalRequired(message) <==>
            exists i, j :: 0 <= i < |message| && i + 8 < j < |message| && FoldsAt(message, i, "approval") &&
                           FoldsAt(message, j, "required") && '\n' !in message[i + 8..j]
  {
    hide FoldsAt;
  }

  /** A job is gated exactly when it failed without a step, its check run and the annotations of
      that can be read, and one of them that is not blank shows a protection rule or an approval. */
  lemma GatedIff(provider: Provider, job: Job)
    ensures Gated(provider, job) <==>
            && EqualFold(job.conclusion, "failure") && job.steps == 0 && TrimSpace(job.checkRunUrl) != ""
            && provider.checkRunId(job.checkRunUrl).Some?
            && var fetched := provider.annotations(provider.checkRunId(job.checkRunUrl).value);
               fetched.Some? && exists a :: a in fetched.value && TrimSpace(a.message) != "" &&
                                            (ShowsProtection(TrimSpace(a.message)) || ShowsApproval(TrimSpace(a.message)))
  {
    hide EqualFold, TrimSpace, ShowsProtection, ShowsApproval;
  }

  /** The environment of a gate: the one named by the last matching annotation; else the original
      environment of the deployment, or its environment, whichever is not blank first; else none known. */
  lemma EnvironmentMeans(provider: Provider, id: int, annotations: seq<Annotation>)
    ensures var e := EnvironmentFor(provider, id, annotations);
            var named := LastGate(annotations).environment;
            var deployment := provider.deployment(id);
            && (named != "" ==> e == named)
            && (named == "" && deployment.None? ==> e == "the target environment")
            && (named == "" && deployment.Some? ==>
                  var original, current := deployment.value.originalEnvironment, deployment.value.environment;
                  e == if TrimSpace(original) != "" then original
                       else if TrimSpace(current) != "" then current
                       else "the target environment")
  {
    hide TrimSpace, LastGate;
    BlankIsEmpty();
  }

  lemma BlankIsEmpty()
    ensures TrimSpace("") == ""
  {
  }

  lemma PolicyStep(names: seq<string>, x: string)
    requires names != []
    ensures var n := |names| - 1;
            x in PolicyNames(names) <==> x in PolicyNames(names[..n]) || (TrimSpace(names[n]) != "" && x == names[n])
  {
    hide TrimSpace;
  }

  lemma {:induction false} PolicyNamesAre(names: seq<string>, x: string)
    ensures x in PolicyNames(names) <==> x in names && TrimSpace(x) != ""
  {
    hide *;
    NoPolicies();
    if names != [] {
      var n := |names| - 1;
      PolicyNamesAre(names[..n], x);
      PolicyStep(names, x);
      assert names == names[..n] + [names[n]];
    }
  }

  /** Policies keep their order and repetitions. */
  lemma {:induction false} PolicyNamesAppend(a: seq<string>, b: seq<string>)
    ensures PolicyNames(a + b) == PolicyNames(a) + PolicyNames(b)
  {
    hide TrimSpace;
    if b == [] {
      assert a + b == a;
    } else {
      var n := |b| - 1;
      assert (a + b)[..|a| + n] == a + b[..n];
      PolicyNamesAppend(a, b[..n]);
    }
  }

  /** What the diagnosis of a gated job says: a protection rule takes precedence, the kinds have
      their confidences, and evidence and job are those of the job. */
  lemma DiagnosisMeans(provider: Provider, job: Job)
    requires Gated(provider, job)
    ensures var d, annotations := DiagnosisFor(provider, job), AnnotationsOf(provider, job);
            && (d.kind == Protection <==>
                  exists a :: a in annotations && TrimSpace(a.message) != "" && ShowsProtection(TrimSpace(a.message)))
            && d.category == "config_error" && d.confidence == (if d.kind == Protection then 94 else 92)
            && d.impactedJobs == [job.name] && d.evidence == References(annotations)
            && d.environment == EnvironmentFor(provider, provider.checkRunId(job.checkRunUrl).value, annotations)
            && forall x :: x in d.policies <==>
                           && d.kind == Protection && d.environment != "the target environment"
                           && TrimSpace(x) != "" && x in provider.policies(d.environment).Or([])
  {
    GatedIff(provider, job);
    hide EqualFold, TrimSpace, ShowsProtection, ShowsApproval, References, LastGate, EnvironmentFor, PolicyNames;
    var d := DiagnosisFor(provider, job);
    forall x ensures x in PolicyNames(provider.policies(d.environment).Or([])) <==>
                     x in provider.policies(d.environment).Or([]) && TrimSpace(x) != "" {
      PolicyNamesAre(provider.policies(d.environment).Or([]), x);
    }
  }
}
