/**
 Cache marks on the messages of a call (`_inject_prompt_caching`): a window over the last messages that can
 carry one, moved in place from call to call.
 */
module PromptCaching {
  import opened Prelude
  import opened Messages

  const BREAKPOINTS: nat := 3

  // ---------- where a message takes its mark ----------

  function FirstText(blocks: seq<Block>, from: nat): Option<Slot>
    decreases |blocks| - from
  {
    if from >= |blocks| then None
    else if blocks[from].TextBlock? then Some(OnBlock(from))
    else FirstText(blocks, from + 1)
  }

  function SlotOf(s: Said): Option<Slot> {
    match s
    case FromUser(Blocks(blocks)) => FirstText(blocks, 0)
    case FromUser(Plain(_)) => Some(Own)
    case FromOther(_, Some(Blocks(blocks)), _) => FirstText(blocks, 0)
    case FromOther(role, body, toolCalls) =>
      if role == Assistant && (body == None || body == Some(Plain(""))) && toolCalls > 0
        then Some(OnToolCall(toolCalls - 1))
      else Some(Own)
  }

  predicate Eligible(s: Said) {
    SlotOf(s).Some?
  }

  function CountEligible(said: seq<Said>): nat {
    if said == [] then 0 else (if Eligible(said[0]) then 1 else 0) + CountEligible(said[1..])
  }

  /** Among the last messages that can carry a mark. */
  predicate InWindow(said: seq<Said>, k: nat)
    requires k < |said|
  {
    Eligible(said[k]) && CountEligible(said[k..]) <= BREAKPOINTS
  }

  predicate IsSystem(s: Said) {
    s.FromOther? && s.role == System
  }

  // ---------- what slots and the window are ----------

  lemma {:induction false} FirstTextIs(blocks: seq<Block>, from: nat, j: nat)
    requires from <= j <= |blocks| && forall i :: from <= i < j ==> blocks[i].MediaBlock?
    requires j < |blocks| ==> blocks[j].TextBlock?
    ensures FirstText(blocks, from) == if j < |blocks| then Some(OnBlock(j)) else None
    decreases j - from
  {
    if from < j {
      FirstTextIs(blocks, from + 1, j);
    }
  }

  /** Among blocks it is the first with text that takes the mark, and none if all are without. */
  lemma SlotOfBlocks(blocks: seq<Block>, role: Role, toolCalls: nat, j: nat)
    requires j <= |blocks| && forall i :: 0 <= i < j ==> blocks[i].MediaBlock?
    requires j < |blocks| ==> blocks[j].TextBlock?
    ensures SlotOf(FromUser(Blocks(blocks))) == if j < |blocks| then Some(OnBlock(j)) else None
    ensures SlotOf(FromOther(role, Some(Blocks(blocks)), toolCalls)) == if j < |blocks| then Some(OnBlock(j)) else None
  {
    FirstTextIs(blocks, 0, j);
  }

  /** Without blocks it is the message, or the last tool call of an assistant that says nothing. */
  lemma SlotOfPlain(s: Said, text: string)
    ensures SlotOf(FromUser(Plain(text))) == Some(Own)
    ensures s.FromOther? && !(s.body.Some? && s.body.value.Blocks?) && s.toolCalls > 0
            && s.role == Assistant && (s.body == None || s.body == Some(Plain(""))) ==>
              SlotOf(s) == Some(OnToolCall(s.toolCalls - 1))
    ensures s.FromOther? && !(s.body.Some? && s.body.value.Blocks?) &&
            (s.role != Assistant || s.toolCalls == 0 || (s.body.Some? && s.body.value.text != "")) ==>
              SlotOf(s) == Some(Own)
  {
  }

  ghost function EligibleFrom(said: seq<Said>, k: nat): set<nat> {
    set j: nat | k <= j < |said| && Eligible(said[j])
  }

  lemma {:induction false} CountIs(said: seq<Said>, k: nat)
    requires k <= |said|
    ensures CountEligible(said[k..]) == |EligibleFrom(said, k)|
    decreases |said| - k
  {
    if k == |said| {
      assert EligibleFrom(said, k) == {};
    } else {
      CountIs(said, k + 1);
      WindowStep(said, k);
      var rest := EligibleFrom(said, k + 1);
      assert EligibleFrom(said, k) == if Eligible(said[k]) then {k} + rest else rest;
    }
  }

  /** A message is in the window exactly if it can carry a mark, as can at most two behind it. */
  lemma InWindowIff(said: seq<Said>, k: nat, behind: set<nat>)
    requires k < |said| && forall j: nat :: j in behind <==> k < j < |said| && SlotOf(said[j]).Some?
    ensures InWindow(said, k) <==> SlotOf(said[k]).Some? && |behind| <= 2
  {
    CountIs(said, k + 1);
    WindowStep(said, k);
    assert behind == EligibleFrom(said, k + 1);
  }

  // ---------- one injection ----------

  function SystemMark(said: seq<Said>, k: nat, before: set<Slot>): set<Slot>
    requires k < |said|
  {
    if k == 0 && IsSystem(said[0]) then before + {Own} else before
  }

  function MarksAfter(said: seq<Said>, k: nat, before: set<Slot>, messageCache: bool): set<Slot>
    requires k < |said|
  {
    var marked := SystemMark(said, k, before);
    if !messageCache || SlotOf(said[k]) == None then marked
    else if InWindow(said, k) then marked + {SlotOf(said[k]).value}
    else marked - {SlotOf(said[k]).value}
  }

  /** The slot of the message is marked exactly if it is in the window; all other marks stay, or the prompt's is set. */
  lemma MarksAre(said: seq<Said>, k: nat, before: set<Slot>, messageCache: bool, slot: Slot)
    requires k < |said|
    ensures slot in MarksAfter(said, k, before, messageCache) <==>
            if messageCache && SlotOf(said[k]) == Some(slot) then InWindow(said, k)
            else slot in before || (k == 0 && said[0].FromOther? && said[0].role == System && slot == Own)
  {
  }

  method InjectPromptCaching(messages: seq<Message>, messageCache: bool) returns (raised: bool)
    requires Distinct(messages)
    modifies Objects(messages)
    ensures raised == (messages == [])
    ensures forall k :: 0 <= k < |messages| ==>
              messages[k].marks == MarksAfter(Saids(messages), k, old(messages[k].marks), messageCache)
  {
    if messages == [] {
      return true;
    }
    raised := false;
    ghost var said := Saids(messages);
    if IsSystem(messages[0].said) {
      messages[0].marks := messages[0].marks + {Own};
    }
    if !messageCache {
      return;
    }
    var breakpointsRemaining: nat := BREAKPOINTS;
    var i := |messages|;
    while i > 0
      invariant 0 <= i <= |messages|
      invariant breakpointsRemaining == Remaining(CountEligible(said[i..]))
      invariant forall k :: 0 <= k < i ==> messages[k].marks == SystemMark(said, k, old(messages[k].marks))
      invariant forall k :: i <= k < |messages| ==>
                  messages[k].marks == MarksAfter(said, k, old(messages[k].marks), messageCache)
    {
      i := i - 1;
      WindowStep(said, i);
      breakpointsRemaining := MarkOne(messages[i], breakpointsRemaining);
    }
  }

  /** How much of the window is used up, from one message to the one before. */
  lemma WindowStep(said: seq<Said>, i: nat)
    requires i < |said|
    ensures CountEligible(said[i..]) == (if Eligible(said[i]) then 1 else 0) + CountEligible(said[i + 1..])
  {
    assert said[i..][1..] == said[i + 1..];
  }

  /** The body of the loop. */
  method MarkOne(message: Message, breakpointsRemaining: nat) returns (left: nat)
    modifies message
    ensures left == if Eligible(message.said) && breakpointsRemaining > 0 then breakpointsRemaining - 1
        else breakpointsRemaining
    ensures message.marks ==
              if !Eligible(message.said) then old(message.marks)
              else if breakpointsRemaining > 0 then old(message.marks) + {SlotOf(message.said).value}
              else old(message.marks) - {SlotOf(message.said).value}
  {
    left := breakpointsRemaining;
    match SlotOf(message.said) {
      case None =>
      case Some(slot) =>
        if left > 0 {
          message.marks := message.marks + {slot};
          left := left - 1;
        } else {
          message.marks := message.marks - {slot};
        }
    }
  }

  function Remaining(used: nat): nat {
    if used <= BREAKPOINTS then BREAKPOINTS - used else 0
  }

  // ---------- the window ----------

  function CountMarked(said: seq<Said>): nat {
    if said == [] then 0 else (if InWindow(said, 0) then 1 else 0) + CountMarked(said[1..])
  }

  /** The window holds three messages, or all if there are fewer. */
  lemma {:induction false} WindowSize(said: seq<Said>)
    ensures CountMarked(said) == if CountEligible(said) <= BREAKPOINTS then CountEligible(said) else BREAKPOINTS
  {
    if said != [] {
      WindowSize(said[1..]);
      assert said[0..] == said;
    }
  }

  lemma {:induction false} CountSuffix(said: seq<Said>, j: nat, k: nat)
    requires j <= k <= |said|
    ensures CountEligible(said[k..]) <= CountEligible(said[j..])
    decreases k - j
  {
    if j < k {
      CountSuffix(said, j + 1, k);
      assert said[j..][1..] == said[j + 1..];
    }
  }

  /** It holds the latest. */
  lemma WindowIsLatest(said: seq<Said>, j: nat, k: nat)
    requires j <= k < |said| && Eligible(said[k]) && InWindow(said, j)
    ensures InWindow(said, k)
  {
    CountSuffix(said, j, k);
  }

  /** The mark of the system prompt is taken away again if it is plain text and four messages can carry one. */
  lemma SystemMarkIff(said: seq<Said>, before: set<Slot>, messageCache: bool)
    requires said != [] && IsSystem(said[0])
    ensures Own in MarksAfter(said, 0, before, messageCache) <==>
            !messageCache || SlotOf(said[0]) != Some(Own) || CountEligible(said) <= BREAKPOINTS
  {
    assert said[0..] == said;
  }

  lemma CountCons(s: Said, rest: seq<Said>)
    ensures CountEligible([s] + rest) == (if Eligible(s) then 1 else 0) + CountEligible(rest)
  {
    assert ([s] + rest)[1..] == rest;
  }

  /** A system prompt and three user messages: the prompt is marked, and the mark is taken away again. */
  lemma SystemMarkDeleted()
    ensures
      var (system, user) := (FromOther(System, Some(Plain("s")), 0), FromUser(Plain("u")));
      MarksAfter([system, user, user, user], 0, {}, true) == {}
  {
    var (system, user) := (FromOther(System, Some(Plain("s")), 0), FromUser(Plain("u")));
    var said := [system, user, user, user];
    CountCons(user, []);
    CountCons(user, [user]);
    CountCons(user, [user, user]);
    CountCons(system, [user, user, user]);
    assert [user] + [] == [user] && [user] + [user] == [user, user] && [user] + [user, user] == [user, user, user];
    assert [system] + [user, user, user] == said && said[0..] == said;
  }
}
