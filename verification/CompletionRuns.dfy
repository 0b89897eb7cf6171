/**
 A completion with its two retry loops: provider failures are retried on the same messages, unusable responses
 with the feedback appended. What the provider and the validation answer is arbitrary.
 */
module CompletionRuns {
  import opened Prelude
  import opened Messages
  import opened PromptCaching
  import MessageMerging

  datatype Settings = Settings(mergeSameRole: bool, claude: bool, messageCache: bool)

  datatype Outcome =
    | Transient                 // connection lost, or rate limit
    | Failed                    // any other failure of the call
    | Empty                     // a response without text or tool calls
    | Unusable(body: Option<Content>, toolCalls: nat, retryMessages: seq<Said>, error: string)
    | Broken(rejected: bool)    // the validation gives up
    | Usable

  datatype Result = Completed | Rejected | RuntimeError

  /** What the provider is sent. */
  datatype Call = Call(seen: seq<Said>, marks: seq<set<Slot>>)

  const ATTEMPTS: nat := 3

  function Marks(messages: seq<Message>): (r: seq<set<Slot>>)
    reads messages
    ensures |r| == |messages|
  {
    seq(|messages|, k requires 0 <= k < |messages| reads messages => messages[k].marks)
  }

  class Provider {
    const answers: nat -> Outcome
    var calls: seq<Call>

    constructor (answers: nat -> Outcome)
      ensures this.answers == answers && calls == []
    {
      this.answers, calls := answers, [];
    }

    method Complete(messages: seq<Message>) returns (outcome: Outcome)
      modifies this
      ensures calls == old(calls) + [Call(Saids(messages), Marks(messages))]
      ensures outcome == answers(|old(calls)|)
    {
      outcome := answers(|calls|);
      calls := calls + [Call(Saids(messages), Marks(messages))];
    }
  }

  // ---------- the run as a function ----------

  function Prepared(s: Settings, said: seq<Said>): seq<Said> {
    if s.mergeSameRole then MessageMerging.Merged(said) else said
  }

  /** Calls on the same messages: transient failures are retried. */
  function Tries(answers: nat -> Outcome, from: nat, left: nat): (n: nat)
    requires left > 0
    ensures 0 < n <= left
    decreases left
  {
    if left == 1 || !answers(from).Transient? then 1 else 1 + Tries(answers, from + 1, left - 1)
  }

  /** What is appended behind an unusable response: the response, then what is wrong with it. */
  function Feedback(o: Outcome): seq<Said>
    requires o.Unusable?
  {
    [FromOther(Assistant, o.body, o.toolCalls)] +
    if o.retryMessages != [] then o.retryMessages
    else if o.toolCalls > 0 then [FromOther(Tool, Some(Plain(o.error)), 0)]
    else [FromUser(Plain(o.error))]
  }

  function Verdict(o: Outcome): Result {
    match o
    case Usable => Completed
    case Empty => Rejected
    case Unusable(_, _, _, _) => Rejected
    case Broken(rejected) => if rejected then Rejected else RuntimeError
    case _ => RuntimeError
  }

  datatype Run = Run(seen: seq<seq<Said>>, log: seq<Said>, result: Result)

  /** The call is not even made if there is nothing to mark. */
  predicate NoCall(s: Settings, said: seq<Said>) {
    s.claude && Prepared(s, said) == []
  }

  /** The calls made on the messages, */
  function Made(s: Settings, said: seq<Said>, answers: nat -> Outcome, from: nat): seq<seq<Said>> {
    if NoCall(s, said) then [] else Repeated(Prepared(s, said), Tries(answers, from, ATTEMPTS))
  }

  /** and what came of them. */
  function Answer(s: Settings, said: seq<Said>, answers: nat -> Outcome, from: nat): Outcome {
    if NoCall(s, said) then Failed else answers(from + Tries(answers, from, ATTEMPTS) - 1)
  }

  function Transcript(s: Settings, said: seq<Said>, answers: nat -> Outcome, from: nat, left: nat): Run
    requires left > 0
    decreases left
  {
    var (here, o) := (Made(s, said, answers, from), Answer(s, said, answers, from));
    if !o.Unusable? then Run(here, said, Verdict(o))
    else if left == 1 then Run(here, said + Feedback(o), Rejected)
    else
      var rest := Transcript(s, said + Feedback(o), answers, from + |here|, left - 1);
      Run(here + rest.seen, rest.log, rest.result)
  }

  function Repeated<T>(x: T, n: nat): (r: seq<T>)
    ensures |r| == n && forall k :: 0 <= k < n ==> r[k] == x
  {
    seq(n, _ => x)
  }

  // ---------- properties of every run ----------

  /** Never more than nine calls. */
  lemma {:induction false} CallsBounded(s: Settings, said: seq<Said>, answers: nat -> Outcome, from: nat, left: nat)
    requires left > 0
    ensures |Transcript(s, said, answers, from, left).seen| <= ATTEMPTS * left
    decreases left
  {
    var (here, o) := (Made(s, said, answers, from), Answer(s, said, answers, from));
    if o.Unusable? && left > 1 {
      CallsBounded(s, said + Feedback(o), answers, from + |here|, left - 1);
    }
  }

  lemma MergeAtEnd(pending: seq<string>, b: seq<Said>)
    requires b != [] ==> b[0].FromOther?
    ensures MessageMerging.Merge(pending, b) == MessageMerging.Flush(pending) + MessageMerging.Merged(b)
  {
    var flush := MessageMerging.Flush(pending);
    if b == [] {
      assert flush + [] == flush;
    } else {
      var rest := MessageMerging.Merge([], b[1..]);
      assert MessageMerging.Merged(b) == [b[0]] + rest;
      Regroup(flush, [b[0]], rest);
    }
  }

  /** Messages that do not start with a user's are merged on their own. */
  lemma {:induction false} MergeBehind(pending: seq<string>, a: seq<Said>, b: seq<Said>)
    requires b != [] ==> b[0].FromOther?
    ensures MessageMerging.Merge(pending, a + b) == MessageMerging.Merge(pending, a) + MessageMerging.Merged(b)
    decreases |a|
  {
    if a == [] {
      assert a + b == b;
      MergeAtEnd(pending, b);
    } else {
      assert (a + b)[0] == a[0] && (a + b)[1..] == a[1..] + b;
      var all := if a[0].FromUser? then pending + MessageMerging.Texts(a[0].content) else pending;
      if MessageMerging.Texty(a[0]) {
        MergeBehind(all, a[1..], b);
      } else {
        MergeBehind([], a[1..], b);
        Regroup(MessageMerging.Flush(all) + [a[0]], MessageMerging.Merge([], a[1..]), MessageMerging.Merged(b));
      }
    }
  }

  lemma PreparedGrows(s: Settings, said: seq<Said>, more: seq<Said>)
    requires more != [] ==> more[0].FromOther?
    ensures Prepared(s, said) <= Prepared(s, said + more)
  {
    MergeBehind([], said, more);
  }

  lemma {:induction false} LogGrows(s: Settings, said: seq<Said>, answers: nat -> Outcome, from: nat, left: nat)
    requires left > 0
    ensures said <= Transcript(s, said, answers, from, left).log
    decreases left
  {
    var (here, o) := (Made(s, said, answers, from), Answer(s, said, answers, from));
    if o.Unusable? && left > 1 {
      LogGrows(s, said + Feedback(o), answers, from + |here|, left - 1);
    }
  }

  lemma {:induction false} SeesFirst(s: Settings, said: seq<Said>, answers: nat -> Outcome, from: nat, left: nat,
          k: nat)
    requires left > 0 && k < |Transcript(s, said, answers, from, left).seen|
    ensures Prepared(s, said) <= Transcript(s, said, answers, from, left).seen[k]
    decreases left
  {
    var (here, o) := (Made(s, said, answers, from), Answer(s, said, answers, from));
    if o.Unusable? && left > 1 && k >= |here| {
      PreparedGrows(s, said, Feedback(o));
      SeesFirst(s, said + Feedback(o), answers, from + |here|, left - 1, k - |here|);
    }
  }

  /** Every call sees all that the first one saw, at the front; the messages are only ever added to. */
  lemma SeesPrefix(s: Settings, said: seq<Said>, answers: nat -> Outcome, from: nat, left: nat, k: nat)
    requires left > 0
    ensures
      var run := Transcript(s, said, answers, from, left);
      said <= run.log && (k < |run.seen| ==> Prepared(s, said) <= run.seen[k])
  {
    LogGrows(s, said, answers, from, left);
    if k < |Transcript(s, said, answers, from, left).seen| {
      SeesFirst(s, said, answers, from, left, k);
    }
  }

  predicate Retried(o: Outcome) {
    o.Transient? || o.Unusable?
  }

  lemma {:induction false} TriesTransient(answers: nat -> Outcome, from: nat, left: nat, k: nat)
    requires left > 0
    ensures
      var n := Tries(answers, from, left);
      && (k < n - 1 ==> answers(from + k).Transient?)
      && (answers(from + n - 1).Transient? ==> n == left)
    decreases left
  {
    if left > 1 && answers(from).Transient? {
      TriesTransient(answers, from + 1, left - 1, if k == 0 then 0 else k - 1);
    }
  }

  lemma StillCalls(s: Settings, said: seq<Said>, more: seq<Said>)
    requires !NoCall(s, said) && more != [] && more[0].FromOther?
    ensures !NoCall(s, said + more)
  {
    PreparedGrows(s, said, more);
  }

  /** The number of calls depends on the answers alone. */
  function CallCount(answers: nat -> Outcome, from: nat, left: nat): (n: nat)
    requires left > 0
    ensures n > 0
    decreases left
  {
    var n := Tries(answers, from, ATTEMPTS);
    if answers(from + n - 1).Unusable? && left > 1 then n + CallCount(answers, from + n, left - 1) else n
  }

  ghost predicate Counted(s: Settings, said: seq<Said>, answers: nat -> Outcome, from: nat, left: nat)
    requires left > 0
  {
    var run := Transcript(s, said, answers, from, left);
    && |run.seen| == CallCount(answers, from, left)
    && run.result == Verdict(answers(from + |run.seen| - 1))
  }

  lemma LastRound(s: Settings, said: seq<Said>, answers: nat -> Outcome, from: nat, left: nat)
    requires left > 0 && !NoCall(s, said)
    requires left == 1 || !answers(from + Tries(answers, from, ATTEMPTS) - 1).Unusable?
    ensures Counted(s, said, answers, from, left)
  {
  }

  lemma TranscriptAgain(s: Settings, said: seq<Said>, answers: nat -> Outcome, from: nat, left: nat, n: nat)
    requires left > 1 && !NoCall(s, said)
    requires n == Tries(answers, from, ATTEMPTS) && answers(from + n - 1).Unusable?
    ensures
      var run := Transcript(s, said, answers, from, left);
      var rest := Transcript(s, said + Feedback(answers(from + n - 1)), answers, from + n, left - 1);
      |run.seen| == n + |rest.seen| && run.result == rest.result
  {
  }

  lemma RoundAgain(s: Settings, said: seq<Said>, answers: nat -> Outcome, from: nat, left: nat, n: nat)
    requires left > 1 && !NoCall(s, said)
    requires n == Tries(answers, from, ATTEMPTS) && answers(from + n - 1).Unusable?
    requires Counted(s, said + Feedback(answers(from + n - 1)), answers, from + n, left - 1)
    ensures Counted(s, said, answers, from, left)
  {
    TranscriptAgain(s, said, answers, from, left, n);
    assert CallCount(answers, from, left) == n + CallCount(answers, from + n, left - 1);
  }

  lemma {:induction false} TranscriptCount(s: Settings, said: seq<Said>, answers: nat -> Outcome, from: nat, left: nat)
    requires left > 0 && !NoCall(s, said)
    ensures Counted(s, said, answers, from, left)
    decreases left
  {
    var n := Tries(answers, from, ATTEMPTS);
    var o := answers(from + n - 1);
    if o.Unusable? && left > 1 {
      StillCalls(s, said, Feedback(o));
      TranscriptCount(s, said + Feedback(o), answers, from + n, left - 1);
      RoundAgain(s, said, answers, from, left, n);
    } else {
      LastRound(s, said, answers, from, left);
    }
  }

  lemma {:induction false} EarlierRetried(answers: nat -> Outcome, from: nat, left: nat, k: nat)
    requires left > 0 && k < CallCount(answers, from, left) - 1
    ensures Retried(answers(from + k))
    decreases left
  {
    var n := Tries(answers, from, ATTEMPTS);
    TriesTransient(answers, from, ATTEMPTS, k);
    if answers(from + n - 1).Unusable? && left > 1 && k >= n {
      EarlierRetried(answers, from + n, left - 1, k - n);
    }
  }

  /** All answers but the last were such as are retried; the last one decides. */
  lemma LastAnswerDecides(s: Settings, said: seq<Said>, answers: nat -> Outcome, from: nat, left: nat, k: nat)
    requires left > 0 && !NoCall(s, said)
    ensures
      var run := Transcript(s, said, answers, from, left);
      && run.seen != []
      && (k < |run.seen| - 1 ==> answers(from + k).Transient? || answers(from + k).Unusable?)
      && var last := answers(from + |run.seen| - 1);
      && (run.result == Completed <==> last.Usable?)
      && (run.result == Rejected <==> last.Empty? || last.Unusable? || (last.Broken? && last.rejected))
      && (run.result == RuntimeError <==> last.Transient? || last.Failed? || (last.Broken? && !last.rejected))
  {
    TranscriptCount(s, said, answers, from, left);
    if k < CallCount(answers, from, left) - 1 {
      EarlierRetried(answers, from, left, k);
    }
  }

  lemma TransientTries(answers: nat -> Outcome, from: nat)
    ensures
      var n := Tries(answers, from, ATTEMPTS);
      answers(from + n - 1).Transient? ==> n == 3 && answers(from).Transient? && answers(from + 1).Transient?
  {
    TriesTransient(answers, from, ATTEMPTS, 0);
    TriesTransient(answers, from, ATTEMPTS, 1);
  }

  lemma {:induction false} TransientThrice(answers: nat -> Outcome, from: nat, left: nat)
    requires left > 0
    ensures
      var n := CallCount(answers, from, left);
      answers(from + n - 1).Transient? ==>
        n >= 3 && answers(from + n - 2).Transient? && answers(from + n - 3).Transient?
    decreases left
  {
    var n := Tries(answers, from, ATTEMPTS);
    TransientTries(answers, from);
    if answers(from + n - 1).Unusable? && left > 1 {
      TransientThrice(answers, from + n, left - 1);
    }
  }

  /** A transient failure ends a run only as the third in a row. */
  lemma ThreeInARow(s: Settings, said: seq<Said>, answers: nat -> Outcome, from: nat, left: nat)
    requires left > 0 && !NoCall(s, said)
    ensures
      var n := |Transcript(s, said, answers, from, left).seen|;
      n > 0 && (answers(from + n - 1).Transient? ==>
        n >= 3 && answers(from + n - 2).Transient? && answers(from + n - 3).Transient?)
  {
    TranscriptCount(s, said, answers, from, left);
    TransientThrice(answers, from, left);
  }

  /** The number of unusable responses among the answers to `calls` calls. */
  function CountUnusable(answers: nat -> Outcome, from: nat, calls: nat): nat
    decreases calls
  {
    if calls == 0 then 0 else (if answers(from).Unusable? then 1 else 0) + CountUnusable(answers, from + 1, calls - 1)
  }

  lemma {:induction false} CountSplit(answers: nat -> Outcome, from: nat, a: nat, b: nat)
    ensures CountUnusable(answers, from, a + b) == CountUnusable(answers, from, a) + CountUnusable(answers, from + a, b)
    decreases a
  {
    if a > 0 {
      CountSplit(answers, from + 1, a - 1, b);
    }
  }

  lemma {:induction false} TriesCount(answers: nat -> Outcome, from: nat, left: nat)
    requires left > 0
    ensures
      var n := Tries(answers, from, left);
      CountUnusable(answers, from, n) == if answers(from + n - 1).Unusable? then 1 else 0
    decreases left
  {
    if left > 1 && answers(from).Transient? {
      TriesCount(answers, from + 1, left - 1);
    }
  }

  lemma {:induction false} UnusableLast(answers: nat -> Outcome, from: nat, left: nat)
    requires left > 0
    ensures
      var n := CallCount(answers, from, left);
      answers(from + n - 1).Unusable? <==> CountUnusable(answers, from, n) == left
    ensures CountUnusable(answers, from, CallCount(answers, from, left)) <= left
    decreases left
  {
    var n := Tries(answers, from, ATTEMPTS);
    TriesCount(answers, from, ATTEMPTS);
    if answers(from + n - 1).Unusable? && left > 1 {
      UnusableLast(answers, from + n, left - 1);
      CountSplit(answers, from, n, CallCount(answers, from + n, left - 1));
    }
  }

  /** An unusable response ends a run exactly if it is the third. */
  lemma ThirdUnusable(s: Settings, said: seq<Said>, answers: nat -> Outcome, from: nat, left: nat)
    requires left > 0 && !NoCall(s, said)
    ensures
      var n := |Transcript(s, said, answers, from, left).seen|;
      n > 0 && (answers(from + n - 1).Unusable? <==> CountUnusable(answers, from, n) == left)
  {
    TranscriptCount(s, said, answers, from, left);
    UnusableLast(answers, from, left);
  }

  function WorstCase(k: nat): Outcome {
    if k % 3 == 2 then Unusable(Some(Plain("x")), 0, [], "") else Transient
  }

  /** The bound is met. */
  lemma NineCalls(said: seq<Said>)
    ensures |Transcript(Settings(false, false, false), said, WorstCase, 0, ATTEMPTS).seen| == 9
  {
    var s := Settings(false, false, false);
    assert forall k: nat :: k % 3 == 0 ==> Tries(WorstCase, k, 3) == 3;
    var once := said + Feedback(WorstCase(2));
    var twice := once + Feedback(WorstCase(5));
    assert |Transcript(s, twice, WorstCase, 6, 1).seen| == 3;
    assert |Transcript(s, once, WorstCase, 3, 2).seen| == 6;
  }

  // ---------- the marks of a call ----------

  function SlotSet(s: Said): set<Slot> {
    match SlotOf(s)
    case None => {}
    case Some(slot) => {slot}
  }

  /** The marks that calls with these settings leave. */
  function Allowed(s: Settings, said: Said): set<Slot> {
    if !s.claude then {}
    else (if IsSystem(said) then {Own} else {}) + (if s.messageCache then SlotSet(said) else {})
  }

  /** The mark of the message is there exactly if it is in the window; a system mark that stays is. */
  predicate RightMarks(s: Settings, seen: seq<Said>, k: nat, marks: set<Slot>)
    requires k < |seen|
  {
    && (s.claude && s.messageCache && Eligible(seen[k]) ==> (SlotOf(seen[k]).value in marks <==> InWindow(seen, k)))
    && (s.claude && k == 0 && IsSystem(seen[0]) && (!s.messageCache || SlotOf(seen[0]) != Some(Own)) ==> Own in marks)
  }

  ghost predicate RightCall(s: Settings, c: Call) {
    |c.marks| == |c.seen| && forall k :: 0 <= k < |c.seen| ==> RightMarks(s, c.seen, k, c.marks[k])
  }

  /** The call leaves no other marks. */
  ghost predicate OnlyAllowed(s: Settings, c: Call) {
    |c.marks| == |c.seen| && forall k :: 0 <= k < |c.seen| ==> c.marks[k] <= Allowed(s, c.seen[k])
  }

  /** A message other than a system message made of blocks is marked exactly if it is in the window. */
  lemma ExactMarks(s: Settings, c: Call, k: nat)
    requires RightCall(s, c) && OnlyAllowed(s, c) && k < |c.seen| && s.claude && s.messageCache
    requires IsSystem(c.seen[k]) ==> SlotOf(c.seen[k]) == Some(Own)
    ensures c.marks[k] == if InWindow(c.seen, k) then SlotSet(c.seen[k]) else {}
  {
    assert RightMarks(s, c.seen, k, c.marks[k]);
  }

  lemma AfterIsRight(s: Settings, said: seq<Said>, k: nat, before: set<Slot>)
    requires k < |said| && s.claude
    ensures RightMarks(s, said, k, MarksAfter(said, k, before, s.messageCache))
    ensures before <= Allowed(s, said[k]) ==> MarksAfter(said, k, before, s.messageCache) <= Allowed(s, said[k])
  {
  }

  // ---------- the loops ----------

  /** The messages have no marks but those that calls with these settings leave. */
  ghost predicate Tame(s: Settings, messages: seq<Message>)
    reads messages
  {
    forall m <- messages :: m.marks <= Allowed(s, m.said)
  }

  /** The calls in `seen` were made, behind those made before, each with the right marks. */
  ghost predicate Grown(s: Settings, before: seq<Call>, now: seq<Call>, seen: seq<seq<Said>>) {
    && |now| == |before| + |seen| && before <= now
    && forall k :: 0 <= k < |seen| ==> now[|before| + k].seen == seen[k] && RightCall(s, now[|before| + k])
  }

  /** None of the calls from `n` on left marks that these settings do not. */
  ghost predicate Clean(s: Settings, calls: seq<Call>, n: nat) {
    forall k :: n <= k < |calls| ==> OnlyAllowed(s, calls[k])
  }

  lemma GrownTwice(s: Settings, a: seq<Call>, b: seq<Call>, c: seq<Call>, x: seq<seq<Said>>, y: seq<seq<Said>>)
    requires Grown(s, a, b, x) && Grown(s, b, c, y)
    ensures Grown(s, a, c, x + y)
  {
    forall k | 0 <= k < |x + y| ensures c[|a| + k].seen == (x + y)[k] && RightCall(s, c[|a| + k]) {
      if k < |x| {
        assert c[|a| + k] == b[|a| + k];
      } else {
        assert c[|b| + (k - |x|)].seen == y[k - |x|];
      }
    }
  }

  method Prepare(s: Settings, messages: seq<Message>) returns (prepared: seq<Message>)
    requires Distinct(messages)
    ensures Saids(prepared) == Prepared(s, Saids(messages))
    ensures Distinct(prepared) && (Tame(s, messages) ==> Tame(s, prepared))
    ensures forall m <- prepared :: m in messages || fresh(m)
  {
    if s.mergeSameRole {
      prepared := MessageMerging.MergeSameRoleMessages(messages);
      forall m <- prepared ensures Tame(s, messages) ==> m.marks <= Allowed(s, m.said) {
        assert m in messages[..|messages|] ==> m in messages;
      }
    } else {
      prepared := messages;
    }
  }

  method CallOnce(s: Settings, messages: seq<Message>, provider: Provider) returns (outcome: Outcome)
    requires Distinct(messages)
    modifies provider, Objects(messages)
    ensures old(Tame(s, messages)) ==> Tame(s, messages) && Clean(s, provider.calls, |old(provider.calls)|)
    ensures if s.claude && messages == [] then outcome == Failed && provider.calls == old(provider.calls)
            else outcome == provider.answers(|old(provider.calls)|) &&
                 Grown(s, old(provider.calls), provider.calls, [Saids(messages)])
  {
    if s.claude {
      forall k | 0 <= k < |messages| ensures RightMarks(s, Saids(messages), k,
        MarksAfter(Saids(messages), k, messages[k].marks, s.messageCache))
      {
        AfterIsRight(s, Saids(messages), k, messages[k].marks);
      }
      var raised := InjectPromptCaching(messages, s.messageCache);
      if raised {
        return Failed;
      }
    }
    assert RightCall(s, Call(Saids(messages), Marks(messages)));
    outcome := provider.Complete(messages);
  }

  ghost predicate TriedSoFar(answers: nat -> Outcome, from: nat, made: nat) {
    made < ATTEMPTS && Tries(answers, from, ATTEMPTS) == made + Tries(answers, from + made, ATTEMPTS - made)
  }

  lemma RepeatedOnce<T>(x: T, n: nat)
    ensures Repeated(x, n) + [x] == Repeated(x, n + 1) && Repeated(x, 0) == []
  {
  }

  /** The loop of `_execute_completion`, on the messages as they are sent. */
  method SendPrepared(s: Settings, prepared: seq<Message>, provider: Provider) returns (outcome: Outcome)
    requires Distinct(prepared)
    modifies provider, Objects(prepared)
    ensures old(Tame(s, prepared)) ==> Tame(s, prepared) && Clean(s, provider.calls, |old(provider.calls)|)
    ensures
      var (before, from) := (old(provider.calls), |old(provider.calls)|);
      var n := Tries(provider.answers, from, ATTEMPTS);
      if s.claude && prepared == [] then outcome == Failed && Grown(s, before, provider.calls, [])
      else outcome == provider.answers(from + n - 1) && Grown(s, before, provider.calls, Repeated(Saids(prepared), n))
  {
    ghost var (before, seen) := (provider.calls, Saids(prepared));
    var attemptCount: nat := 0;
    RepeatedOnce(seen, 0);
    while true
      invariant TriedSoFar(provider.answers, |before|, attemptCount)
      invariant Grown(s, before, provider.calls, Repeated(seen, attemptCount))
      invariant old(Tame(s, prepared)) ==> Tame(s, prepared) && Clean(s, provider.calls, |before|)
      invariant s.claude && prepared == [] ==> attemptCount == 0 && provider.calls == before
      decreases ATTEMPTS - attemptCount
    {
      ghost var now := provider.calls;
      attemptCount := attemptCount + 1;
      outcome := CallOnce(s, prepared, provider);
      if s.claude && prepared == [] {
        return;
      }
      GrownTwice(s, before, now, provider.calls, Repeated(seen, attemptCount - 1), [seen]);
      RepeatedOnce(seen, attemptCount - 1);
      if !outcome.Transient? || attemptCount == ATTEMPTS {
        return;
      }
    }
  }

  /** How many calls are made on the messages, and what they are sent. */
  lemma MadeOf(s: Settings, said: seq<Said>, answers: nat -> Outcome, from: nat)
    ensures
      var sent := if s.mergeSameRole then MessageMerging.Merged(said) else said;
      var (made, o) := (Made(s, said, answers, from), Answer(s, said, answers, from));
      && |made| <= 3 && (|made| == 0 <==> s.claude && sent == []) && (made == [] ==> o == Failed)
      && (made != [] ==> o == answers(from + |made| - 1))
      && (o.Transient? ==> |made| == 3)
      && (forall k :: 0 <= k < |made| ==> made[k] == sent)
      && (forall k :: from <= k < from + |made| - 1 ==> answers(k).Transient?)
  {
    var made := Made(s, said, answers, from);
    if made != [] {
      TriesTransient(answers, from, ATTEMPTS, 0);
      forall k | from <= k < from + |made| - 1 ensures answers(k).Transient? {
        TriesTransient(answers, from, ATTEMPTS, k - from);
      }
    }
  }

  lemma CallsOf(s: Settings, before: seq<Call>, now: seq<Call>, seen: seq<seq<Said>>)
    requires Grown(s, before, now, seen)
    ensures |now| == |before| + |seen| && now[..|before|] == before
    ensures forall k :: |before| <= k < |now| ==> now[k].seen == seen[k - |before|]
  {
    forall k | |before| <= k < |now| ensures now[k].seen == seen[k - |before|] {
      assert now[|before| + (k - |before|)].seen == seen[k - |before|];
    }
  }

  /** `_execute_completion` */
  method ExecuteCompletion(s: Settings, messages: seq<Message>, provider: Provider) returns (outcome: Outcome)
    requires Distinct(messages)
    modifies provider, Objects(messages)
    ensures old(Tame(s, messages)) ==> Tame(s, messages) && Clean(s, provider.calls, |old(provider.calls)|)
    ensures outcome == Answer(s, Saids(messages), provider.answers, |old(provider.calls)|)
    ensures Grown(s, old(provider.calls), provider.calls,
        Made(s, Saids(messages), provider.answers, |old(provider.calls)|))
    ensures
      var (from, to) := (|old(provider.calls)|, |provider.calls|);
      var sent := if s.mergeSameRole then MessageMerging.Merged(Saids(messages)) else Saids(messages);
      && from <= to <= from + 3 && provider.calls[..from] == old(provider.calls)
      && (from == to <==> s.claude && sent == []) && (from == to ==> outcome == Failed)
      && (from < to ==> outcome == provider.answers(to - 1))
      && (outcome.Transient? ==> to == from + 3)
      && (forall k :: from <= k < to ==> provider.calls[k].seen == sent)
      && (forall k :: from <= k < to - 1 ==> provider.answers(k).Transient?)
  {
    ghost var from := |provider.calls|;
    MadeOf(s, Saids(messages), provider.answers, from);
    var prepared := Prepare(s, messages);
    assert Saids(prepared) == [] <==> prepared == [];
    outcome := SendPrepared(s, prepared, provider);
    forall m <- messages ensures old(Tame(s, messages)) ==> m.marks <= Allowed(s, m.said) {
      assert m !in prepared ==> m.marks == old(m.marks);
    }
    CallsOf(s, old(provider.calls), provider.calls, Made(s, Saids(messages), provider.answers, from));
  }

  /** The messages of the feedback are new. */
  method Append(log: seq<Message>, said: seq<Said>) returns (r: seq<Message>)
    requires Distinct(log)
    ensures Distinct(r) && log <= r && Saids(r) == Saids(log) + said
    ensures forall m <- r :: m in log || (fresh(m) && m.marks == {})
  {
    r := log;
    for k := 0 to |said|
      invariant Distinct(r) && log <= r && Saids(r) == Saids(log) + said[..k]
      invariant forall m <- r :: m in log || (fresh(m) && m.marks == {})
    {
      var m := new Message(said[k]);
      SaidsConcat(r, [m]);
      assert said[..k + 1] == said[..k] + [said[k]];
      r := r + [m];
    }
    assert said[..|said|] == said;
  }

  /** What is still to come completes the whole run. */
  ghost predicate Continues(whole: Run, seen: seq<seq<Said>>, rest: Run) {
    whole.seen == seen + rest.seen && whole.log == rest.log && whole.result == rest.result
  }

  lemma RoundLeft(whole: Run, s: Settings, said: seq<Said>, answers: nat -> Outcome, from: nat, left: nat,
                  seen: seq<seq<Said>>)
    requires left > 0 && Continues(whole, seen, Transcript(s, said, answers, from, left))
    ensures
      var (here, o) := (Made(s, said, answers, from), Answer(s, said, answers, from));
      && (!o.Unusable? ==> whole == Run(seen + here, said, Verdict(o)))
      && (o.Unusable? && left == 1 ==> whole == Run(seen + here, said + Feedback(o), Rejected))
      && (o.Unusable? && left > 1 ==>
            Continues(whole, seen + here, Transcript(s, said + Feedback(o), answers, from + |here|, left - 1)))
  {
    var (here, o) := (Made(s, said, answers, from), Answer(s, said, answers, from));
    if o.Unusable? && left > 1 {
      Regroup(seen, here, Transcript(s, said + Feedback(o), answers, from + |here|, left - 1).seen);
    }
  }

  /** One round of the outer loop. */
  lemma Round(whole: Run, s: Settings, said: seq<Said>, answers: nat -> Outcome, left: nat,
              before: seq<Call>, now: seq<Call>, after: seq<Call>, seen: seq<seq<Said>>)
    requires left > 0 && Continues(whole, seen, Transcript(s, said, answers, |now|, left))
    requires Grown(s, before, now, seen) && Grown(s, now, after, Made(s, said, answers, |now|))
    ensures
      var (more, o) := (seen + Made(s, said, answers, |now|), Answer(s, said, answers, |now|));
      && Grown(s, before, after, more)
      && (!o.Unusable? ==> whole == Run(more, said, Verdict(o)))
      && (o.Unusable? && left == 1 ==> whole == Run(more, said + Feedback(o), Rejected))
      && (o.Unusable? && left > 1 ==>
            Continues(whole, more, Transcript(s, said + Feedback(o), answers, |after|, left - 1)))
  {
    GrownTwice(s, before, now, after, seen, Made(s, said, answers, |now|));
    RoundLeft(whole, s, said, answers, |now|, left, seen);
  }

  /** `_do_completion_with_validation`: an unusable response and the feedback are appended. */
  method CompleteWithValidation(s: Settings, messages: seq<Message>, provider: Provider)
    returns (outcome: Outcome, log: seq<Message>)
    requires Distinct(messages)
    modifies provider, Objects(messages)
    ensures outcome == Answer(s, Saids(messages), provider.answers, |old(provider.calls)|)
    ensures Grown(s, old(provider.calls), provider.calls,
        Made(s, Saids(messages), provider.answers, |old(provider.calls)|))
    ensures Distinct(log) && messages <= log && forall m <- log :: m in messages || fresh(m)
    ensures old(Tame(s, messages)) ==> Tame(s, log) && Clean(s, provider.calls, |old(provider.calls)|)
    ensures Saids(log) == Saids(messages) + if outcome.Unusable? then Feedback(outcome) else []
  {
    outcome := ExecuteCompletion(s, messages, provider);
    if outcome.Unusable? {
      log := Append(messages, Feedback(outcome));
    } else {
      log := messages;
      assert Saids(messages) + [] == Saids(messages);
    }
  }

  /** What the last answer makes of the run. */
  predicate Decides(last: Outcome, result: Result) {
    && (result == Completed <==> last.Usable?)
    && (result == Rejected <==> last.Empty? || last.Unusable? || (last.Broken? && last.rejected))
  }

  /** The same, if there was a call. */
  ghost predicate Decided(answers: nat -> Outcome, from: nat, to: nat, result: Result) {
    if from < to then Decides(answers(to - 1), result) else result == RuntimeError
  }

  lemma RunDecided(s: Settings, said: seq<Said>, answers: nat -> Outcome, before: seq<Call>, now: seq<Call>)
    requires Grown(s, before, now, Transcript(s, said, answers, |before|, ATTEMPTS).seen)
    ensures Decided(answers, |before|, |now|, Transcript(s, said, answers, |before|, ATTEMPTS).result)
  {
    if !NoCall(s, said) {
      LastAnswerDecides(s, said, answers, |before|, ATTEMPTS, 0);
    }
  }

  /** `_create_completion_with_retries`: `log` is the list of messages as the run leaves it. */
  method CreateCompletionWithRetries(s: Settings, messages: seq<Message>, provider: Provider)
    returns (result: Result, log: seq<Message>)
    requires Distinct(messages)
    modifies provider, Objects(messages)
    ensures
      var run := Transcript(s, Saids(messages), provider.answers, |old(provider.calls)|, ATTEMPTS);
      && result == run.result && Saids(log) == run.log && messages <= log
      && Grown(s, old(provider.calls), provider.calls, run.seen)
    ensures Decided(provider.answers, |old(provider.calls)|, |provider.calls|, result)
    ensures Distinct(log)
    ensures old(Tame(s, messages)) ==> Tame(s, log) && Clean(s, provider.calls, |old(provider.calls)|)
  {
    log := messages;
    ghost var before := provider.calls;
    ghost var whole := Transcript(s, Saids(messages), provider.answers, |before|, ATTEMPTS);
    ghost var seen: seq<seq<Said>> := [];
    var retryCount: nat := 0;
    assert whole.seen == [] + whole.seen;
    while true
      invariant retryCount < ATTEMPTS
      invariant Distinct(log) && messages <= log && forall m <- log :: m in messages || fresh(m)
      invariant old(Tame(s, messages)) ==> Tame(s, log) && Clean(s, provider.calls, |before|)
      invariant Grown(s, before, provider.calls, seen)
      invariant Continues(whole, seen,
          Transcript(s, Saids(log), provider.answers, |provider.calls|, ATTEMPTS - retryCount))
      decreases ATTEMPTS - retryCount
    {
      ghost var (now, said) := (provider.calls, Saids(log));
      retryCount := retryCount + 1;
      var outcome;
      outcome, log := CompleteWithValidation(s, log, provider);
      Round(whole, s, said, provider.answers, ATTEMPTS - retryCount + 1, before, now, provider.calls, seen);
      seen := seen + Made(s, said, provider.answers, |now|);
      if !outcome.Unusable? {
        assert said + [] == said;
        RunDecided(s, Saids(messages), provider.answers, before, provider.calls);
        return Verdict(outcome), log;
      }
      if retryCount == ATTEMPTS {
        RunDecided(s, Saids(messages), provider.answers, before, provider.calls);
        return Rejected, log;
      }
    }
  }

  // ---------- with the system prompt ----------

  function SystemMessage(prompt: string): Said {
    FromOther(System, Some(Plain(prompt)), 0)
  }

  /** The system prompt comes first in every call, so there always is one. */
  lemma SystemFirst(s: Settings, prompt: string, said: seq<Said>)
    ensures Prepared(s, [SystemMessage(prompt)] + said) != []
    ensures Prepared(s, [SystemMessage(prompt)] + said)[0] == SystemMessage(prompt)
  {
    var all := [SystemMessage(prompt)] + said;
    assert all[1..] == said;
    assert MessageMerging.Merged(all) == [] + [all[0]] + MessageMerging.Merge([], said);
  }

  /** The prompt is cached as announced only while at most three messages can carry a mark. */
  lemma SystemPromptCachedIff(s: Settings, c: Call, prompt: string)
    requires RightCall(s, c) && s.claude && c.seen != [] && c.seen[0] == SystemMessage(prompt)
    ensures Own in c.marks[0] <==> !s.messageCache || CountEligible(c.seen) <= BREAKPOINTS
  {
    assert RightMarks(s, c.seen, 0, c.marks[0]);
    assert c.seen[0..] == c.seen;
  }

  lemma RunBounds(s: Settings, prompt: string, said: seq<Said>, answers: nat -> Outcome, from: nat)
    ensures
      var run := Transcript(s, [SystemMessage(prompt)] + said, answers, from, ATTEMPTS);
      1 <= |run.seen| <= 9 && Decides(answers(from + |run.seen| - 1), run.result)
  {
    var all := [SystemMessage(prompt)] + said;
    SystemFirst(s, prompt, said);
    CallsBounded(s, all, answers, from, ATTEMPTS);
    LastAnswerDecides(s, all, answers, from, ATTEMPTS, 0);
  }

  lemma TameFront(s: Settings, first: Message, messages: seq<Message>)
    requires first.marks == {} && Tame(s, messages)
    ensures Tame(s, [first] + messages)
  {
  }

  lemma TameBehind(s: Settings, first: Message, messages: seq<Message>, log: seq<Message>)
    requires [first] + messages <= log && Tame(s, log)
    ensures Tame(s, messages)
  {
    forall m <- messages ensures m.marks <= Allowed(s, m.said) {
      var k :| 0 <= k < |messages| && messages[k] == m;
      assert ([first] + messages)[k + 1] == m && log[k + 1] == m;
    }
  }

  /**
   `create_completion`, from where the model is set up: the caller's list is left as it is, its messages get marks.
   */
  method CreateCompletion(s: Settings, messages: seq<Message>, systemPrompt: string, provider: Provider)
    returns (result: Result)
    requires Distinct(messages)
    modifies provider, Objects(messages)
    ensures
      var all := [FromOther(System, Some(Plain(systemPrompt)), 0)] + Saids(messages);
      var run := Transcript(s, all, provider.answers, |old(provider.calls)|, ATTEMPTS);
      && result == run.result && Grown(s, old(provider.calls), provider.calls, run.seen)
      && 1 <= |provider.calls| - |old(provider.calls)| <= 9
    ensures
      var last := provider.answers(|provider.calls| - 1);
      && (result == Completed <==> last.Usable?)
      && (result == Rejected <==> last.Empty? || last.Unusable? || (last.Broken? && last.rejected))
      && (result == RuntimeError <==> last.Transient? || last.Failed? || (last.Broken? && !last.rejected))
    ensures old(Tame(s, messages)) ==> Tame(s, messages) && Clean(s, provider.calls, |old(provider.calls)|)
  {
    var system := new Message(SystemMessage(systemPrompt));
    SaidsConcat([system], messages);
    assert Saids([system]) == [SystemMessage(systemPrompt)];
    RunBounds(s, systemPrompt, Saids(messages), provider.answers, |provider.calls|);
    if Tame(s, messages) {
      TameFront(s, system, messages);
    }
    var log;
    result, log := CreateCompletionWithRetries(s, [system] + messages, provider);
    if Tame(s, log) {
      TameBehind(s, system, messages, log);
    }
  }

  /** With three user messages behind it, the system prompt is sent without its mark. */
  lemma SystemPromptNotCached(c: Call)
    requires RightCall(Settings(false, true, true), c)
    requires c.seen == [SystemMessage("s"), FromUser(Plain("u")), FromUser(Plain("u")), FromUser(Plain("u"))]
    ensures Own !in c.marks[0] && (OnlyAllowed(Settings(false, true, true), c) ==> c.marks[0] == {})
  {
    var (system, user) := (SystemMessage("s"), FromUser(Plain("u")));
    SystemMarkDeleted();
    assert c.seen == [system, user, user, user] && c.seen[0..] == c.seen;
    assert RightMarks(Settings(false, true, true), c.seen, 0, c.marks[0]);
    assert !InWindow(c.seen, 0);
  }
}
