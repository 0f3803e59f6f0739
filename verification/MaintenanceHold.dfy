/** Reading `cs-agent maintenance` output: whether the node is held, whether to try again, and
    whether the agent is back. */
module MaintenanceHold {
  import opened Text

  /** A JSON value; `number` of a text is what Python's `int` makes of it, if it accepts it. */
  datatype Value =
    | Null
    | Bool(b: bool)
    | Number(n: int)
    | Words(s: string, number: Option<int>)
    | List(items: seq<Value>)
    | Object(fields: map<string, Value>)

  /** One line of standard output. */
  datatype Line = Blank | NotJson | Json(v: Value)

  datatype Shape = StatusShape | ErrorShape | NoShape

  datatype Parsed = Parsed(shape: Shape, doc: map<string, Value>)

  /** The first line that is not blank. */
  function FirstText(lines: seq<Line>): Line {
    if lines == [] then Blank else if lines[0] != Blank then lines[0] else FirstText(lines[1..])
  }

  method FirstLine(lines: seq<Line>) returns (text: Line)
    ensures text == FirstText(lines)
  {
    text := Blank;
    for i := 0 to |lines|
      invariant FirstText(lines) == FirstText(lines[i..])
    {
      if lines[i] != Blank {
        return lines[i];
      }
    }
  }

  /** `cli_json`: the error document is recognized before the status one. */
  function CliJson(stdout: seq<Line>): Parsed {
    match FirstText(stdout)
    case Json(Object(doc)) =>
      if "error" in doc then Parsed(ErrorShape, doc)
      else if "paused" in doc && "local" in doc then Parsed(StatusShape, doc)
      else Parsed(NoShape, doc)
    case _ => Parsed(NoShape, map[])
  }

  function Field(doc: map<string, Value>, key: string): Value { if key in doc then doc[key] else Null }

  datatype Outcome = Ok | Failed | Timeout | Unconfirmed | NotPlaced | Interrupted | Cleared | ErrorDocument | NoOutput

  /** `held` is None when the node's state is unknown. */
  datatype OnResult = OnResult(outcome: Outcome, ok: bool, rc: Option<int>, shape: Shape, held: Option<bool>)

  /** `classify_on`: the document's shape first, the exit status second. Whatever way the command ended,
      the result fits it. */
  method ClassifyOn(stdout: seq<Line>, rc: Option<int>) returns (res: OnResult)
    ensures res == OnVerdict(stdout, rc)
    ensures forall e :: Prints(e, stdout) && rc == ExitCode(e) ==> Fits(res, e)
  {
    forall e | Prints(e, stdout) && rc == ExitCode(e) ensures Fits(OnVerdict(stdout, rc), e) {
      ClassifiesEveryExit(e, stdout);
    }
    hide Prints, Fits;
    var parsed := CliJson(stdout);
    var doc := parsed.doc;
    res := OnResult(NoOutput, false, rc, parsed.shape, None);
    if parsed.shape == ErrorShape {
      res := res.(outcome := ErrorDocument);
      return;
    }
    if parsed.shape != StatusShape {
      return;
    }
    var held := Field(doc, "local") != Null;
    res := res.(held := Some(held));
    if rc == Some(0) {
      if held {
        res := res.(outcome := Ok, ok := true);
      } else {
        res := res.(outcome := Failed);
      }
    } else if rc == Some(2) {
      res := res.(outcome := Timeout);
    } else if rc == Some(4) {
      res := res.(outcome := if held then Unconfirmed else NotPlaced);
    } else if rc == Some(1) {
      res := res.(outcome := if held then Interrupted else Cleared);
    } else {
      res := res.(outcome := Failed);
    }
  }

  function OnVerdict(stdout: seq<Line>, rc: Option<int>): OnResult {
    var parsed := CliJson(stdout);
    match parsed.shape
    case ErrorShape => OnResult(ErrorDocument, false, rc, ErrorShape, None)
    case NoShape => OnResult(NoOutput, false, rc, NoShape, None)
    case StatusShape =>
      var held := Field(parsed.doc, "local") != Null;
      OnResult(StatusOutcome(rc, held), rc == Some(0) && held, rc, StatusShape, Some(held))
  }

  function StatusOutcome(rc: Option<int>, held: bool): Outcome {
    if rc == Some(0) then (if held then Ok else Failed)
    else if rc == Some(2) then Timeout
    else if rc == Some(4) then (if held then Unconfirmed else NotPlaced)
    else if rc == Some(1) then (if held then Interrupted else Cleared)
    else Failed
  }

  /** `on_retry`. */
  predicate OnRetry(stdout: seq<Line>, rc: Option<int>) { OnVerdict(stdout, rc).outcome == NotPlaced }

  // -------------------------------------------------------------------------
  // The exits of `cs-agent maintenance on --wait`
  // -------------------------------------------------------------------------

  /** Every way the command can end, as cs-agent defines them. */
  datatype Exit =
    | Usage                        // before any hold
    | InterruptedUnread            // hold placed, final status unreadable
    | TimedOutUnread               // hold placed, status unreadable
    | DbUnavailable(placed: bool)  // control.db failed, before or after the hold was written
    | NotPolledUnread              // the up-front controller check, status unreadable
    | DeadlineUnread               // hold placed, never confirmed, status unreadable
    | Quiesced                     // quiet, acknowledged, settled
    | TimedOutBusy                 // hold placed, work still in flight
    | NotPolled                    // the up-front controller check, nothing placed
    | NeverConfirmed               // hold placed, the controller never confirmed it
    | ClearedWhileWaiting          // somebody ran `off`
    | InterruptedHeld              // interrupted, the hold stays
    | OtherStatus(placed: bool, rc: Option<int>)  // a status under any other code, or code 0 without a hold
    | Silent(placed: bool, rc: Option<int>)  // neither document

  /** Whether the node is held after this exit of a call that began with no hold. */
  ghost predicate LeavesHold(e: Exit) {
    match e
    case Usage | NotPolledUnread | NotPolled | ClearedWhileWaiting => false
    case DbUnavailable(placed) => placed
    case OtherStatus(placed, _) => placed
    case Silent(placed, _) => placed
    case _ => true
  }

  function ExitCode(e: Exit): Option<int> {
    match e
    case Quiesced => Some(0)
    case Usage | InterruptedUnread | ClearedWhileWaiting | InterruptedHeld => Some(1)
    case TimedOutUnread | TimedOutBusy => Some(2)
    case DbUnavailable(_) => Some(3)
    case NotPolledUnread | DeadlineUnread | NotPolled | NeverConfirmed => Some(4)
    case OtherStatus(_, rc) => rc
    case Silent(_, rc) => rc
  }

  /** The codes a status document is not documented under. */
  ghost predicate OtherCode(placed: bool, rc: Option<int>) {
    rc != Some(1) && rc != Some(2) && rc != Some(4) && (rc == Some(0) ==> !placed)
  }

  ghost predicate PrintsStatus(e: Exit) {
    || e.Quiesced? || e.TimedOutBusy? || e.NotPolled? || e.NeverConfirmed? || e.ClearedWhileWaiting?
       || e.InterruptedHeld?
    || e.OtherStatus?
  }

  /** No line, no JSON, or JSON that is neither an error nor a status document. */
  ghost predicate NeitherDocument(first: Line) {
    !(first.Json? && first.v.Object?
      && ("error" in first.v.fields || ("paused" in first.v.fields && "local" in first.v.fields)))
  }

  /** What the exit prints: the status document shows the hold as it is, whatever its other keys. */
  ghost predicate Prints(e: Exit, stdout: seq<Line>) {
    var first := FirstText(stdout);
    if PrintsStatus(e) then
      && first.Json? && first.v.Object? && (e.OtherStatus? ==> OtherCode(e.placed, e.rc))
      && var doc := first.v.fields;
         "error" !in doc && "paused" in doc && "local" in doc && (doc["local"] != Null <==> LeavesHold(e))
    else if e.Silent? then NeitherDocument(first)
    else first.Json? && first.v.Object? && "error" in first.v.fields
  }

  ghost function Documented(e: Exit): Outcome {
    match e
    case Quiesced => Ok
    case TimedOutBusy => Timeout
    case NotPolled => NotPlaced
    case NeverConfirmed => Unconfirmed
    case ClearedWhileWaiting => Cleared
    case InterruptedHeld => Interrupted
    case OtherStatus(_, _) => Failed
    case Silent(_, _) => NoOutput
    case _ => ErrorDocument
  }

  /** The result names the exit's documented outcome; its `held` is the node's true state whenever a status
      was printed and None exactly when it was not, and `ok` is the quiesced exit. */
  ghost predicate Fits(res: OnResult, e: Exit) {
    && res.outcome == Documented(e)
    && (res.held.Some? ==> res.held.value == LeavesHold(e))
    && (res.held.None? <==> !PrintsStatus(e))
    && (res.ok <==> e.Quiesced?) && (res.ok ==> LeavesHold(e))
  }

  lemma ClassifiesEveryExit(e: Exit, stdout: seq<Line>)
    requires Prints(e, stdout)
    ensures Fits(OnVerdict(stdout, ExitCode(e)), e)
  {
    hide FirstText;
    assert PrintsStatus(e) ==> CliJson(stdout).shape == StatusShape;
  }

  /** The exit status alone cannot tell the hold: two exits share it and leave different states. */
  lemma ExitCodeIsNotEnough(rc: int)
    requires rc == 1 || rc == 3 || rc == 4
    ensures exists a: Exit, b: Exit ::
              ExitCode(a) == Some(rc) == ExitCode(b) && LeavesHold(a) && !LeavesHold(b)
  {
    var a := if rc == 1 then InterruptedHeld else if rc == 3 then DbUnavailable(true) else NeverConfirmed;
    var b := if rc == 1 then Usage else if rc == 3 then DbUnavailable(false) else NotPolled;
    assert ExitCode(a) == Some(rc) == ExitCode(b) && LeavesHold(a) && !LeavesHold(b);
  }

  /** A document with an error is never read as a status, whatever else it holds: it says nothing about
      the hold, ends the call, and lets a status poll go on only for exit code 3, the document's own
      code before the exit status. */
  lemma ErrorDocumentExactly(stdout: seq<Line>, rc: Option<int>)
    requires var first := FirstText(stdout);
             first.Json? && first.v.Object? && "error" in first.v.fields
    ensures var res := OnVerdict(stdout, rc);
            res.outcome == ErrorDocument && res.held.None? && !res.ok && !OnRetry(stdout, rc)
    ensures var doc, res := FirstText(stdout).v.fields, AgentVerdict(stdout, rc);
            && !res.ready && res.held.None?
            && (!res.done <==> if "exit_code" in doc then CodeOf(doc["exit_code"], rc) == Some(DB_UNAVAILABLE)
                               else rc == Some(DB_UNAVAILABLE))
  {
    hide FirstText, CodeOf;
    assert CliJson(stdout).shape == ErrorShape;
  }

  // -------------------------------------------------------------------------
  // Repeating the call
  // -------------------------------------------------------------------------

  datatype Attempt = Attempt(exit: Exit, stdout: seq<Line>)

  ghost predicate Real(attempts: seq<Attempt>) {
    forall i :: 0 <= i < |attempts| ==> Prints(attempts[i].exit, attempts[i].stdout)
  }

  /** The attempts a task with `until: not on_retry` makes of those on offer, at most `tries`. */
  function Made(offered: seq<Attempt>, tries: nat): seq<Attempt> {
    if tries == 0 || offered == [] then []
    else
      var a := offered[0];
      [a] + if OnRetry(a.stdout, ExitCode(a.exit)) then Made(offered[1..], tries - 1) else []
  }

  /** No call was repeated unless the one before it certainly placed nothing, so a hold the calls end
      with was placed by the last of them; and success means that call placed it. */
  ghost predicate NoHoldRepeated(offered: seq<Attempt>, tries: nat, made: seq<Attempt>) {
    && made <= offered && |made| <= tries && (tries > 0 && offered != [] ==> made != [])
    && (forall i :: 0 <= i < |made| - 1 ==> made[i].exit.NotPolled? && !LeavesHold(made[i].exit))
    && (made != [] ==>
          var last := made[|made| - 1];
          && (last.exit.NotPolled? ==> |made| == tries || made == offered)
          && (OnVerdict(last.stdout, ExitCode(last.exit)).ok ==> LeavesHold(last.exit)))
  }

  lemma {:induction false} RetryNeverRepeatsAHold(offered: seq<Attempt>, tries: nat)
    requires Real(offered)
    ensures NoHoldRepeated(offered, tries, Made(offered, tries))
  {
    hide OnVerdict, OnRetry, ExitCode, Prints, LeavesHold;
    if tries > 0 && offered != [] {
      var a, rest := offered[0], offered[1..];
      assert offered == [a] + rest;
      OnlyNotPolledRepeats(a);
      hide NoHoldRepeated;
      if OnRetry(a.stdout, ExitCode(a.exit)) {
        RetryNeverRepeatsAHold(rest, tries - 1);
        Repeated(a, rest, tries, Made(rest, tries - 1));
      } else {
        MadeOnce(a, rest, tries);
      }
    }
  }

  lemma Repeated(a: Attempt, rest: seq<Attempt>, tries: nat, made: seq<Attempt>)
    requires tries > 0 && a.exit.NotPolled? && !LeavesHold(a.exit) && NoHoldRepeated(rest, tries - 1, made)
    requires OnVerdict(a.stdout, ExitCode(a.exit)).ok ==> LeavesHold(a.exit)
    ensures NoHoldRepeated([a] + rest, tries, [a] + made)
  {
    hide OnVerdict, ExitCode, LeavesHold;
  }

  lemma MadeOnce(a: Attempt, rest: seq<Attempt>, tries: nat)
    requires tries > 0 && !a.exit.NotPolled?
    requires OnVerdict(a.stdout, ExitCode(a.exit)).ok ==> LeavesHold(a.exit)
    ensures NoHoldRepeated([a] + rest, tries, [a])
  {
    hide OnVerdict, ExitCode, LeavesHold;
  }

  lemma OnlyNotPolledRepeats(a: Attempt)
    requires Prints(a.exit, a.stdout)
    ensures OnRetry(a.stdout, ExitCode(a.exit)) <==> a.exit.NotPolled?
    ensures a.exit.NotPolled? ==> !LeavesHold(a.exit)
    ensures OnVerdict(a.stdout, ExitCode(a.exit)).ok ==> LeavesHold(a.exit)
  {
    hide FirstText, OnVerdict, Prints;
    ClassifiesEveryExit(a.exit, a.stdout);
  }

  // -------------------------------------------------------------------------
  // Waiting for the agent
  // -------------------------------------------------------------------------

  datatype AgentState = Unheld | AgentReady | AgentInactive | Unavailable | AgentError | NothingYet

  datatype AgentResult = AgentResult(done: bool, ready: bool, state: AgentState, held: Option<bool>,
      active: Option<bool>)

  /** `int(value)`, falling back to the exit status where that raises. */
  function CodeOf(v: Value, rc: Option<int>): Option<int> {
    match v
    case Number(n) => Some(n)
    case Bool(b) => Some(if b then 1 else 0)
    case Words(_, number) => if number.Some? then number else rc
    case _ => rc
  }

  const DB_UNAVAILABLE := 3

  /** `agent_status`. */
  method AgentStatus(stdout: seq<Line>, rc: Option<int>) returns (res: AgentResult)
    ensures res == AgentVerdict(stdout, rc)
    ensures forall s :: Shows(s, stdout, rc) ==> Answers(res, s)
  {
    forall s | Shows(s, stdout, rc) ensures Answers(AgentVerdict(stdout, rc), s) {
      AgentVerdictExactly(s, stdout, rc);
    }
    hide Shows, Answers;
    var parsed := CliJson(stdout);
    var doc := parsed.doc;
    res := AgentResult(false, false, NothingYet, None, None);
    if parsed.shape == ErrorShape {
      var code := if "exit_code" in doc then CodeOf(doc["exit_code"], rc) else rc;
      if code == Some(DB_UNAVAILABLE) {
        res := res.(state := Unavailable);
      } else {
        res := res.(done := true, state := AgentError);
      }
      return;
    }
    if parsed.shape != StatusShape {
      return;
    }
    var held := Field(doc, "local") != Null;
    var active := Field(doc, "agent_active") == Bool(true);
    res := res.(held := Some(held), active := Some(active));
    if !held {
      res := res.(done := true, state := Unheld);
    } else if active {
      res := res.(done := true, ready := true, state := AgentReady);
    } else {
      res := res.(state := AgentInactive);
    }
  }

  function AgentVerdict(stdout: seq<Line>, rc: Option<int>): AgentResult {
    var parsed := CliJson(stdout);
    match parsed.shape
    case NoShape => AgentResult(false, false, NothingYet, None, None)
    case ErrorShape =>
      if (if "exit_code" in parsed.doc then CodeOf(parsed.doc["exit_code"], rc) else rc) == Some(DB_UNAVAILABLE)
      then AgentResult(false, false, Unavailable, None, None)
      else AgentResult(true, false, AgentError, None, None)
    case StatusShape =>
      var held, active := Field(parsed.doc, "local") != Null, Field(parsed.doc, "agent_active") == Bool(true);
      var state := if !held then Unheld else if active then AgentReady else AgentInactive;
      AgentResult(state != AgentInactive, state == AgentReady, state, Some(held), Some(active))
  }

  /** The node as a status call finds it: held or not, the agent up or not, the call readable or not. */
  datatype Sample = Sample(held: bool, active: bool, answer: Answer)
  datatype Answer = Status | DbBusy | UsageError | Nothing

  /** What such a call prints. */
  ghost predicate Shows(s: Sample, stdout: seq<Line>, rc: Option<int>) {
    var first := FirstText(stdout);
    match s.answer
    case Nothing => NeitherDocument(first)
    case Status =>
      && first.Json? && first.v.Object?
      && var doc := first.v.fields;
         && "error" !in doc && "paused" in doc && "local" in doc && (doc["local"] != Null <==> s.held)
         && (s.active <==> "agent_active" in doc && doc["agent_active"] == Bool(true))
    case DbBusy =>
      first.Json? && first.v.Object? && "error" in first.v.fields
      && ("exit_code" in first.v.fields ==> first.v.fields["exit_code"] == Number(DB_UNAVAILABLE))
      && rc == Some(DB_UNAVAILABLE)
    case UsageError =>
      && first.Json? && first.v.Object? && "error" in first.v.fields
      && rc != Some(DB_UNAVAILABLE)
      && ("exit_code" in first.v.fields ==>
            first.v.fields["exit_code"].Number? && first.v.fields["exit_code"].n != DB_UNAVAILABLE)
  }

  /** The poll ends, ready, exactly on a sample that shows the hold and an active agent; it ends,
      refused, exactly on a missing hold or an error that waiting will not cure. */
  ghost predicate Answers(res: AgentResult, s: Sample) {
    && (res.ready <==> s.answer == Status && s.held && s.active)
    && (res.done && !res.ready <==> s.answer == UsageError || (s.answer == Status && !s.held))
    && (res.held.Some? <==> s.answer == Status) && (res.held.Some? ==> res.held.value == s.held)
    && (res.ready ==> res.done)
  }

  lemma AgentVerdictExactly(s: Sample, stdout: seq<Line>, rc: Option<int>)
    requires Shows(s, stdout, rc)
    ensures Answers(AgentVerdict(stdout, rc), s)
  {
    hide FirstText;
    assert s.answer == Status ==> CliJson(stdout).shape == StatusShape;
  }

  datatype Poll = Poll(sample: Sample, stdout: seq<Line>, rc: Option<int>)

  /** The index the poll stops at, or `|polls|` when the retries run out. */
  function StopsAt(polls: seq<Poll>): (n: nat)
    ensures n <= |polls|
  {
    if polls == [] then 0
    else if AgentVerdict(polls[0].stdout, polls[0].rc).done then 0
    else 1 + StopsAt(polls[1..])
  }

  /** A wait that ends ready saw the hold and the agent in that very sample, and no earlier sample
      showed the hold gone. */
  lemma {:induction false} WaitEndsOnTheHold(polls: seq<Poll>)
    requires forall i :: 0 <= i < |polls| ==> Shows(polls[i].sample, polls[i].stdout, polls[i].rc)
    ensures var n := StopsAt(polls);
            && (forall i :: 0 <= i < n ==> polls[i].sample.answer == Status ==>
                  polls[i].sample.held && !polls[i].sample.active)
            && (forall i :: 0 <= i < n ==> polls[i].sample.answer != UsageError)
            && (n < |polls| && AgentVerdict(polls[n].stdout, polls[n].rc).ready ==>
                  polls[n].sample.answer == Status && polls[n].sample.held && polls[n].sample.active)
  {
    hide AgentVerdict, Shows;
    if polls != [] {
      AgentVerdictExactly(polls[0].sample, polls[0].stdout, polls[0].rc);
      if !AgentVerdict(polls[0].stdout, polls[0].rc).done {
        WaitEndsOnTheHold(polls[1..]);
        forall i | 0 < i < StopsAt(polls) ensures polls[i] == polls[1..][i - 1] {}
      }
    }
  }

  // -------------------------------------------------------------------------
  // The documents, key by key
  // -------------------------------------------------------------------------

  /** The document is the first line that is not blank, whatever follows it. */
  lemma {:induction false} FirstTextExactly(lines: seq<Line>)
    ensures FirstText(lines) == Blank <==> forall i :: 0 <= i < |lines| ==> lines[i] == Blank
    ensures forall i :: 0 <= i < |lines| && lines[i] != Blank && (forall j :: 0 <= j < i ==> lines[j] == Blank) ==>
                          FirstText(lines) == lines[i]
  {
    if lines != [] && lines[0] == Blank {
      FirstTextExactly(lines[1..]);
      assert forall i :: 0 <= i < |lines| - 1 ==> lines[1..][i] == lines[i + 1];
      forall i | 0 <= i < |lines| && lines[i] != Blank && (forall j :: 0 <= j < i ==> lines[j] == Blank)
        ensures FirstText(lines) == lines[i]
      {
        assert lines[1..][i - 1] == lines[i];
        assert forall j :: 0 <= j < i - 1 ==> lines[1..][j] == lines[j + 1];
      }
    }
  }

  ghost predicate IsError(stdout: seq<Line>) {
    var first := FirstText(stdout);
    first.Json? && first.v.Object? && "error" in first.v.fields
  }

  ghost predicate IsStatus(stdout: seq<Line>) {
    var first := FirstText(stdout);
    && first.Json? && first.v.Object? && "error" !in first.v.fields
    && "paused" in first.v.fields && "local" in first.v.fields
  }

  /** The node is held when the status document's `local` is not null. */
  ghost predicate ShowsHold(stdout: seq<Line>) {
    IsStatus(stdout) && FirstText(stdout).v.fields["local"] != Null
  }

  /** The outcome of the call, key by key and code by code. */
  lemma OnExactly(stdout: seq<Line>, rc: Option<int>)
    ensures var res := OnVerdict(stdout, rc);
            && res.rc == rc && (res.ok <==> res.outcome == Ok)
            && res.held == (if IsStatus(stdout) then Some(ShowsHold(stdout)) else None)
            && (res.outcome == ErrorDocument <==> IsError(stdout))
            && (res.outcome == NoOutput <==> !IsError(stdout) && !IsStatus(stdout))
            && (res.outcome == Ok <==> rc == Some(0) && ShowsHold(stdout))
            && (res.outcome == Timeout <==> rc == Some(2) && IsStatus(stdout))
            && (res.outcome == Unconfirmed <==> rc == Some(4) && ShowsHold(stdout))
            && (res.outcome == NotPlaced <==> rc == Some(4) && IsStatus(stdout) && !ShowsHold(stdout))
            && (res.outcome == Interrupted <==> rc == Some(1) && ShowsHold(stdout))
            && (res.outcome == Cleared <==> rc == Some(1) && IsStatus(stdout) && !ShowsHold(stdout))
            && (res.shape == ErrorShape <==> IsError(stdout)) && (res.shape == StatusShape <==> IsStatus(stdout))
    ensures OnRetry(stdout, rc) <==> rc == Some(4) && IsStatus(stdout) && !ShowsHold(stdout)
  {
    hide FirstText;
  }

  /** The error document's own code, a number or a text that is one, before the exit status. */
  ghost predicate SaysUnavailable(stdout: seq<Line>, rc: Option<int>)
    requires IsError(stdout)
  {
    var doc := FirstText(stdout).v.fields;
    if "exit_code" in doc then
      match doc["exit_code"]
      case Number(n) => n == 3
      case Words(_, Some(n)) => n == 3
      case Bool(_) => false
      case _ => rc == Some(3)
    else rc == Some(3)
  }

  /** The agent's answer, key by key: what state it is in, whether the wait is over, and whether it ends well. */
  lemma AgentExactly(stdout: seq<Line>, rc: Option<int>)
    ensures var res := AgentVerdict(stdout, rc);
            var active := IsStatus(stdout) && "agent_active" in FirstText(stdout).v.fields
                          && FirstText(stdout).v.fields["agent_active"] == Bool(true);
            && (res.state == Unheld <==> IsStatus(stdout) && !ShowsHold(stdout))
            && (res.state == AgentReady <==> ShowsHold(stdout) && active)
            && (res.state == AgentInactive <==> ShowsHold(stdout) && !active)
            && (res.state == Unavailable <==> IsError(stdout) && SaysUnavailable(stdout, rc))
            && (res.state == AgentError <==> IsError(stdout) && !SaysUnavailable(stdout, rc))
            && (res.state == NothingYet <==> !IsError(stdout) && !IsStatus(stdout))
            && (res.done <==> res.state == Unheld || res.state == AgentReady || res.state == AgentError)
            && (res.ready <==> res.state == AgentReady)
            && res.held == (if IsStatus(stdout) then Some(ShowsHold(stdout)) else None)
            && res.active == (if IsStatus(stdout) then Some(active) else None)
  {
    hide FirstText;
  }

  // -------------------------------------------------------------------------
  // Every exit and every sample can be printed
  // -------------------------------------------------------------------------

  ghost function StatusDocument(held: bool, active: bool): map<string, Value> {
    map["paused" := Bool(true), "local" := if held then Bool(true) else Null, "agent_active" := Bool(active)]
  }

  lemma ExitsPrint(e: Exit)
    requires e.OtherStatus? ==> OtherCode(e.placed, e.rc)
    ensures exists stdout :: Prints(e, stdout)
  {
    if PrintsStatus(e) {
      assert Prints(e, [Json(Object(StatusDocument(LeavesHold(e), true)))]);
    } else if e.Silent? {
      assert Prints(e, [Blank]) by { assert FirstText([]) == Blank; }
    } else {
      assert Prints(e, [Json(Object(map["error" := Null]))]);
    }
  }

  lemma SamplesShow(s: Sample)
    ensures exists stdout, rc :: Shows(s, stdout, rc)
  {
    match s.answer
    case Status => assert Shows(s, [Json(Object(StatusDocument(s.held, s.active)))], Some(0));
    case DbBusy => assert Shows(s, [Json(Object(map["error" := Null]))], Some(3));
    case UsageError => assert Shows(s, [Json(Object(map["error" := Null]))], Some(1));
    case Nothing => assert FirstText([]) == Blank; assert Shows(s, [], Some(127));
  }
}
