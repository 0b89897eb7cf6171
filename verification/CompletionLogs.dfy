/** What the calls of a run see, from one to the next. */
module CompletionLogs {
  import opened Prelude
  import opened Messages
  import opened CompletionRuns
  import MessageMerging

  /** The messages when `calls` calls have been made: behind each unusable response there is the feedback to it. */
  function LogAt(said: seq<Said>, answers: nat -> Outcome, from: nat, calls: nat): seq<Said>
    decreases calls
  {
    if calls == 0 then said
    else
      var o := answers(from + calls - 1);
      LogAt(said, answers, from, calls - 1) + if o.Unusable? then Feedback(o) else []
  }

  lemma {:induction false} LogStays(said: seq<Said>, answers: nat -> Outcome, from: nat, calls: nat)
    requires calls < Tries(answers, from, ATTEMPTS)
    ensures LogAt(said, answers, from, calls) == said
    decreases calls
  {
    if calls > 0 {
      LogStays(said, answers, from, calls - 1);
      TriesTransient(answers, from, ATTEMPTS, calls - 1);
      assert said + [] == said;
    }
  }

  /** What a round leaves behind. */
  lemma LogAfterRound(said: seq<Said>, answers: nat -> Outcome, from: nat)
    ensures
      var n := Tries(answers, from, ATTEMPTS);
      var o := answers(from + n - 1);
      LogAt(said, answers, from, n) == said + if o.Unusable? then Feedback(o) else []
  {
    LogStays(said, answers, from, Tries(answers, from, ATTEMPTS) - 1);
  }

  lemma {:induction false} LogSplits(said: seq<Said>, answers: nat -> Outcome, from: nat, a: nat, b: nat)
    ensures LogAt(said, answers, from, a + b) == LogAt(LogAt(said, answers, from, a), answers, from + a, b)
    decreases b
  {
    if b > 0 {
      LogSplits(said, answers, from, a, b - 1);
    }
  }

  lemma LogLater(said: seq<Said>, answers: nat -> Outcome, from: nat, n: nat, k: nat)
    requires n == Tries(answers, from, ATTEMPTS) <= k && answers(from + n - 1).Unusable?
    ensures LogAt(said, answers, from, k) == LogAt(said + Feedback(answers(from + n - 1)), answers, from + n, k - n)
  {
    LogAfterRound(said, answers, from);
    LogSplits(said, answers, from, n, k - n);
  }

  lemma SamePrepared(s: Settings, a: seq<Said>, b: seq<Said>)
    requires a == b
    ensures Prepared(s, a) == Prepared(s, b)
  {
  }

  lemma FirstRound(s: Settings, said: seq<Said>, answers: nat -> Outcome, from: nat, left: nat, k: nat)
    requires left > 0 && !NoCall(s, said) && k < Tries(answers, from, ATTEMPTS)
    ensures k < |Transcript(s, said, answers, from, left).seen|
    ensures Transcript(s, said, answers, from, left).seen[k] == Prepared(s, said)
  {
  }

  lemma LaterRounds(s: Settings, said: seq<Said>, answers: nat -> Outcome, from: nat, left: nat, n: nat, k: nat)
    requires left > 1 && !NoCall(s, said) && n == Tries(answers, from, ATTEMPTS) <= k
    requires answers(from + n - 1).Unusable? && k < |Transcript(s, said, answers, from, left).seen|
    ensures
      var rest := Transcript(s, said + Feedback(answers(from + n - 1)), answers, from + n, left - 1);
      && k - n < |rest.seen| && Transcript(s, said, answers, from, left).seen[k] == rest.seen[k - n]
  {
    var rest := Transcript(s, said + Feedback(answers(from + n - 1)), answers, from + n, left - 1);
    Behind(Made(s, said, answers, from), rest.seen, k);
  }

  lemma Behind<T>(a: seq<T>, b: seq<T>, k: nat)
    requires |a| <= k < |a + b|
    ensures (a + b)[k] == b[k - |a|]
  {
  }

  lemma OneRoundOnly(s: Settings, said: seq<Said>, answers: nat -> Outcome, from: nat, left: nat, n: nat)
    requires left > 0 && !NoCall(s, said) && n == Tries(answers, from, ATTEMPTS)
    requires left == 1 || !answers(from + n - 1).Unusable?
    ensures
      var run := Transcript(s, said, answers, from, left);
      |run.seen| == n && run.log == said + if answers(from + n - 1).Unusable? then Feedback(answers(from + n - 1))
          else []
  {
    assert said + [] == said;
  }

  lemma SeesFirstRound(s: Settings, said: seq<Said>, answers: nat -> Outcome, from: nat, left: nat, k: nat)
    requires left > 0 && !NoCall(s, said) && k < Tries(answers, from, ATTEMPTS)
    ensures k < |Transcript(s, said, answers, from, left).seen|
    ensures Transcript(s, said, answers, from, left).seen[k] == Prepared(s, LogAt(said, answers, from, k))
  {
    FirstRound(s, said, answers, from, left, k);
    LogStays(said, answers, from, k);
    SamePrepared(s, said, LogAt(said, answers, from, k));
  }

  lemma SeesLater(s: Settings, said: seq<Said>, answers: nat -> Outcome, from: nat, left: nat, n: nat, k: nat,
          x: seq<Said>)
    requires left > 1 && !NoCall(s, said) && n == Tries(answers, from, ATTEMPTS) <= k
    requires answers(from + n - 1).Unusable?
    requires x == Prepared(s, LogAt(said + Feedback(answers(from + n - 1)), answers, from + n, k - n))
    ensures x == Prepared(s, LogAt(said, answers, from, k))
  {
    LogLater(said, answers, from, n, k);
  }

  lemma HasMore(s: Settings, said: seq<Said>, answers: nat -> Outcome, from: nat, left: nat, k: nat)
    requires left > 0 && !NoCall(s, said) && k < |Transcript(s, said, answers, from, left).seen|
    ensures
      var n := Tries(answers, from, ATTEMPTS);
      k < n || (left > 1 && answers(from + n - 1).Unusable?)
  {
  }

  lemma {:induction false} SeesBehind(s: Settings, said: seq<Said>, answers: nat -> Outcome, from: nat, left: nat,
          n: nat, k: nat) returns (x: seq<Said>)
    requires left > 1 && !NoCall(s, said) && n == Tries(answers, from, ATTEMPTS) <= k
    requires answers(from + n - 1).Unusable? && k < |Transcript(s, said, answers, from, left).seen|
    ensures x == Transcript(s, said, answers, from, left).seen[k]
    ensures x == Prepared(s, LogAt(said + Feedback(answers(from + n - 1)), answers, from + n, k - n))
    decreases left, 0
  {
    LaterRounds(s, said, answers, from, left, n, k);
    var fed := said + Feedback(answers(from + n - 1));
    StillCalls(s, said, Feedback(answers(from + n - 1)));
    x := Transcript(s, fed, answers, from + n, left - 1).seen[k - n];
    SeesLog(s, fed, answers, from + n, left - 1, k - n);
  }

  lemma {:induction false} SeesLog(s: Settings, said: seq<Said>, answers: nat -> Outcome, from: nat, left: nat, k: nat)
    requires left > 0 && !NoCall(s, said) && k < |Transcript(s, said, answers, from, left).seen|
    ensures Transcript(s, said, answers, from, left).seen[k] == Prepared(s, LogAt(said, answers, from, k))
    decreases left, 1
  {
    var n := Tries(answers, from, ATTEMPTS);
    HasMore(s, said, answers, from, left, k);
    if k < n {
      SeesFirstRound(s, said, answers, from, left, k);
    } else {
      var x := SeesBehind(s, said, answers, from, left, n, k);
      SeesLater(s, said, answers, from, left, n, k, x);
    }
  }

  lemma WholeLog(s: Settings, said: seq<Said>, answers: nat -> Outcome, from: nat, left: nat, n: nat)
    requires left > 1 && !NoCall(s, said) && n == Tries(answers, from, ATTEMPTS) && answers(from + n - 1).Unusable?
    ensures
      var (run, rest) := (Transcript(s, said, answers, from, left),
                          Transcript(s, said + Feedback(answers(from + n - 1)), answers, from + n, left - 1));
      |run.seen| == n + |rest.seen| && run.log == rest.log
  {
  }

  lemma {:induction false} EndsBehind(s: Settings, said: seq<Said>, answers: nat -> Outcome, from: nat, left: nat,
          n: nat) returns (end: seq<Said>, calls: nat)
    requires left > 1 && !NoCall(s, said) && n == Tries(answers, from, ATTEMPTS) && answers(from + n - 1).Unusable?
    ensures
      var run := Transcript(s, said, answers, from, left);
      end == run.log && |run.seen| == n + calls
    ensures end == LogAt(said + Feedback(answers(from + n - 1)), answers, from + n, calls)
    decreases left, 0
  {
    WholeLog(s, said, answers, from, left, n);
    var fed := said + Feedback(answers(from + n - 1));
    StillCalls(s, said, Feedback(answers(from + n - 1)));
    var rest := Transcript(s, fed, answers, from + n, left - 1);
    end, calls := rest.log, |rest.seen|;
    EndsWithLog(s, fed, answers, from + n, left - 1);
  }

  lemma EndsLater(said: seq<Said>, answers: nat -> Outcome, from: nat, n: nat, end: seq<Said>, calls: nat, total: nat)
    requires n == Tries(answers, from, ATTEMPTS) && answers(from + n - 1).Unusable? && total == n + calls
    requires end == LogAt(said + Feedback(answers(from + n - 1)), answers, from + n, calls)
    ensures end == LogAt(said, answers, from, total)
  {
    LogLater(said, answers, from, n, total);
  }

  lemma EndOfRound(said: seq<Said>, answers: nat -> Outcome, from: nat, n: nat, end: seq<Said>, total: nat)
    requires n == Tries(answers, from, ATTEMPTS) == total
    requires end == said + if answers(from + n - 1).Unusable? then Feedback(answers(from + n - 1)) else []
    ensures end == LogAt(said, answers, from, total)
  {
    LogAfterRound(said, answers, from);
  }

  lemma EndsHere(s: Settings, said: seq<Said>, answers: nat -> Outcome, from: nat, left: nat, n: nat)
    requires left > 0 && !NoCall(s, said) && n == Tries(answers, from, ATTEMPTS)
    requires left == 1 || !answers(from + n - 1).Unusable?
    ensures
      var run := Transcript(s, said, answers, from, left);
      run.log == LogAt(said, answers, from, |run.seen|)
  {
    OneRoundOnly(s, said, answers, from, left, n);
    var run := Transcript(s, said, answers, from, left);
    EndOfRound(said, answers, from, n, run.log, |run.seen|);
  }

  lemma {:induction false} EndsWithLog(s: Settings, said: seq<Said>, answers: nat -> Outcome, from: nat, left: nat)
    requires left > 0 && !NoCall(s, said)
    ensures
      var run := Transcript(s, said, answers, from, left);
      run.log == LogAt(said, answers, from, |run.seen|)
    decreases left, 1
  {
    var n := Tries(answers, from, ATTEMPTS);
    if left > 1 && answers(from + n - 1).Unusable? {
      var end, calls := EndsBehind(s, said, answers, from, left, n);
      EndsLater(said, answers, from, n, end, calls, |Transcript(s, said, answers, from, left).seen|);
    } else {
      EndsHere(s, said, answers, from, left, n);
    }
  }

  /**
   What is appended behind a call: nothing if the response is not unusable; else the response, and then the retry
   messages of the validation, or its error, as the result of the tool call if there was one and as a user message if
   not.
   */
  lemma LogGrowsBy(said: seq<Said>, answers: nat -> Outcome, from: nat, k: nat)
    ensures
      var (log, next, o) := (LogAt(said, answers, from, k), LogAt(said, answers, from, k + 1), answers(from + k));
      && (!o.Unusable? ==> next == log)
      && (o.Unusable? && o.retryMessages != [] ==>
            next == log + [FromOther(Assistant, o.body, o.toolCalls)] + o.retryMessages)
      && (o.Unusable? && o.retryMessages == [] && o.toolCalls > 0 ==>
            next == log + [FromOther(Assistant, o.body, o.toolCalls), FromOther(Tool, Some(Plain(o.error)), 0)])
      && (o.Unusable? && o.retryMessages == [] && o.toolCalls == 0 ==>
            next == log + [FromOther(Assistant, o.body, o.toolCalls), FromUser(Plain(o.error))])
  {
    assert from + (k + 1) - 1 == from + k;
  }

  /** Every call sees the messages as the responses before it have left them, merged if so set, and so does the end. */
  lemma CallSees(s: Settings, said: seq<Said>, answers: nat -> Outcome, from: nat, left: nat, k: nat)
    requires left > 0 && !NoCall(s, said)
    ensures LogAt(said, answers, from, 0) == said
    ensures
      var (run, log) := (Transcript(s, said, answers, from, left), LogAt(said, answers, from, k));
      && (k < |run.seen| ==> run.seen[k] == if s.mergeSameRole then MessageMerging.Merged(log) else log)
      && (k == |run.seen| ==> run.log == log)
  {
    if k < |Transcript(s, said, answers, from, left).seen| {
      SeesLog(s, said, answers, from, left, k);
    }
    EndsWithLog(s, said, answers, from, left);
  }
}
