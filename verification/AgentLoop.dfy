/**
 The tool-calling loop of the optimisation agent (`run_agent_optimize`): the model is asked again
 and again, its tool calls are carried out and answered, until it reports or the budget of rounds
 or time is spent, and then it is asked once more without tools.
 */
module AgentLoop {
  import opened Options

  const AGENT_DEADLINE_SECONDS := 240.0
  const AGENT_MAX_ROUNDS := 8
  const TOOL_RESULT_MAX_CHARS := 6000

  /** `arguments` is the JSON text the model wrote, if any. */
  datatype Call = Call(id: string, name: string, arguments: Option<string>)

  datatype Message =
    | System(content: string)
    | User(content: string)
    | Assistant(said: Option<string>, calls: seq<Call>)
    | Reply(callId: string, content: string)

  datatype Step = Step(tool: string, args: string, ok: bool, elapsed: real)

  datatype Answer = ClientRaised | Answered(content: Option<string>, calls: seq<Call>)
  datatype ToolResult = ToolRaised(error: string) | Returned(ok: bool, text: string)

  /** Everything outside the loop: the model, the tools (the k-th execution of the run), JSON
      reading of arguments, and the readings of the monotonic clock. */
  datatype World = World(
    client: (seq<Message>, bool) -> Answer,
    tool: (nat, string, string) -> ToolResult,
    loads: string -> Option<string>,
    clock: nat -> real)

  /** One request to the model; `checked` is the last clock reading before it. */
  datatype Request = Request(messages: seq<Message>, withTools: bool, checked: real)

  const NO_ARGS := "{}"
  const CONVERGE := "诊断预算已用完，请立即基于已获取的信息输出最终报告，不要再调用工具。"
  const TOOL_FAILED := "工具执行失败："

  // ---- What the model's interface accepts --------------------------------------------------------

  /** Reading one more message while the calls `awaiting` have not been answered yet. */
  function Advance(awaiting: seq<Call>, m: Message, first: bool): Option<seq<Call>> {
    match m
    case System(_) => if first then Some(awaiting) else None
    case User(_) => if awaiting == [] then Some([]) else None
    case Assistant(_, calls) => if awaiting == [] && calls != [] then Some(calls) else None
    case Reply(id, content) =>
      if awaiting != [] && awaiting[0].id == id && |content| <= TOOL_RESULT_MAX_CHARS then Some(awaiting[1..]) else None
  }

  /** The calls still unanswered at the end of a conversation; None when it is malformed. */
  function Awaiting(ms: seq<Message>): Option<seq<Call>> {
    if ms == [] then Some([])
    else
      var before := Awaiting(ms[..|ms| - 1]);
      if before.None? then None else Advance(before.value, ms[|ms| - 1], |ms| == 1)
  }

  predicate WellFormed(ms: seq<Message>) {
    Awaiting(ms) == Some([])
  }

  /** The assistant message at `i` is followed at once by one reply per call, same ids, same order. */
  predicate AnsweredAt(ms: seq<Message>, i: nat)
    requires i < |ms| && ms[i].Assistant?
  {
    var calls := ms[i].calls;
    && calls != [] && i + |calls| < |ms|
    && forall p :: i < p <= i + |calls| ==>
         ms[p].Reply? && ms[p].callId == calls[p - i - 1].id && |ms[p].content| <= TOOL_RESULT_MAX_CHARS
  }

  /** Position `p` is one of the replies to the assistant message at `i`. */
  predicate Covers(ms: seq<Message>, i: nat, p: nat) {
    i < p && i < |ms| && ms[i].Assistant? && p <= i + |ms[i].calls|
  }

  /** The same rule, message by message. */
  ghost predicate EveryCallAnswered(ms: seq<Message>) {
    && (forall i :: 0 <= i < |ms| && ms[i].System? ==> i == 0)
    && (forall i :: 0 <= i < |ms| && ms[i].Assistant? ==> AnsweredAt(ms, i))
    && (forall p :: 0 <= p < |ms| && ms[p].Reply? ==> exists i: nat :: Covers(ms, i, p))
  }

  /** After `p` messages, `rest` is what the assistant message that is still open awaits. */
  ghost predicate OpenAt(ms: seq<Message>, p: nat, rest: seq<Call>) {
    && (rest == [] ==> forall i: nat :: !Covers(ms, i, p))
    && (rest != [] ==> exists i: nat :: Covers(ms, i, p) && rest == ms[i].calls[p - i - 1..])
  }

  lemma {:induction false} AnsweredIsAccepted(ms: seq<Message>, p: nat)
    requires EveryCallAnswered(ms) && p <= |ms|
    ensures Awaiting(ms[..p]).Some? && OpenAt(ms, p, Awaiting(ms[..p]).value)
    decreases p
  {
    if p > 0 {
      AnsweredIsAccepted(ms, p - 1);
      NextIsAccepted(ms, p, Awaiting(ms[..p - 1]).value);
    }
  }

  lemma NextIsAccepted(ms: seq<Message>, p: nat, rest: seq<Call>)
    requires EveryCallAnswered(ms) && 0 < p <= |ms|
    requires Awaiting(ms[..p - 1]) == Some(rest) && OpenAt(ms, p - 1, rest)
    ensures Awaiting(ms[..p]).Some? && OpenAt(ms, p, Awaiting(ms[..p]).value)
  {
    assert ms[..p][..p - 1] == ms[..p - 1] && ms[..p][p - 1] == ms[p - 1];
    assert Awaiting(ms[..p]) == Advance(rest, ms[p - 1], p == 1);
    if rest != [] {
      ReplyClosesOne(ms, p, rest);
    } else {
      NothingOpen(ms, p);
    }
  }

  lemma ReplyClosesOne(ms: seq<Message>, p: nat, rest: seq<Call>)
    requires EveryCallAnswered(ms) && 0 < p <= |ms| && rest != [] && OpenAt(ms, p - 1, rest)
    ensures ms[p - 1].Reply? && ms[p - 1].callId == rest[0].id && |ms[p - 1].content| <= TOOL_RESULT_MAX_CHARS
    ensures OpenAt(ms, p, rest[1..])
  {
    var i: nat :| Covers(ms, i, p - 1) && rest == ms[i].calls[p - 2 - i..];
    assert AnsweredAt(ms, i);
    if rest[1..] == [] {
      forall k: nat ensures !Covers(ms, k, p) {
        if Covers(ms, k, p) {
          OnlyOneOpen(ms, i, k, p - 1);
        }
      }
    } else {
      assert Covers(ms, i, p) && rest[1..] == ms[i].calls[p - i - 1..];
    }
  }

  lemma OnlyOneOpen(ms: seq<Message>, i: nat, k: nat, p: nat)
    requires EveryCallAnswered(ms) && p < |ms| && Covers(ms, i, p) && Covers(ms, k, p + 1)
    requires ms[p].Reply?
    ensures i == k
  {
    assert AnsweredAt(ms, i) && AnsweredAt(ms, k);
  }

  lemma NothingOpen(ms: seq<Message>, p: nat)
    requires EveryCallAnswered(ms) && 0 < p <= |ms| && OpenAt(ms, p - 1, [])
    ensures !ms[p - 1].Reply?
    ensures OpenAt(ms, p, if ms[p - 1].Assistant? then ms[p - 1].calls else [])
  {
    forall i: nat ensures Covers(ms, i, p) ==> i == p - 1 {
      assert !Covers(ms, i, p - 1);
    }
    if ms[p - 1].Assistant? {
      assert AnsweredAt(ms, p - 1);
      assert Covers(ms, p - 1, p) && ms[p - 1].calls == ms[p - 1].calls[p - (p - 1) - 1..];
    }
  }

  /** As far as the conversation goes, every reply stands where it is awaited. */
  ghost predicate RepliesInPlace(ms: seq<Message>) {
    forall i: nat, p: nat :: Covers(ms, i, p) && p < |ms| ==>
      ms[p].Reply? && ms[p].callId == ms[i].calls[p - i - 1].id && |ms[p].content| <= TOOL_RESULT_MAX_CHARS
  }

  ghost predicate NoStrays(ms: seq<Message>) {
    && (forall i :: 0 <= i < |ms| && ms[i].System? ==> i == 0)
    && (forall i :: 0 <= i < |ms| && ms[i].Assistant? ==> ms[i].calls != [])
    && (forall p :: 0 <= p < |ms| && ms[p].Reply? ==> exists i: nat :: Covers(ms, i, p))
  }

  /** `EveryCallAnswered` for a conversation that may still await the calls `rest`. */
  ghost predicate AnsweredSoFar(ms: seq<Message>, rest: seq<Call>) {
    RepliesInPlace(ms) && NoStrays(ms) && OpenAt(ms, |ms|, rest)
  }

  lemma {:induction false} AcceptedIsAnswered(ms: seq<Message>)
    requires Awaiting(ms).Some?
    ensures AnsweredSoFar(ms, Awaiting(ms).value)
  {
    if ms != [] {
      var p := |ms| - 1;
      LastAccepted(ms, ms[..p], ms[p]);
      AcceptedIsAnswered(ms[..p]);
      OneMoreAccepted(ms[..p], Awaiting(ms[..p]).value, ms[p], Awaiting(ms).value);
    }
  }

  lemma LastAccepted(ms: seq<Message>, short: seq<Message>, last: Message)
    requires ms != [] && short == ms[..|ms| - 1] && last == ms[|ms| - 1] && Awaiting(ms).Some?
    ensures ms == short + [last]
    ensures Awaiting(short).Some? && Advance(Awaiting(short).value, last, short == []) == Awaiting(ms)
  {
  }

  lemma OneMoreAccepted(short: seq<Message>, before: seq<Call>, m: Message, rest: seq<Call>)
    requires AnsweredSoFar(short, before) && Advance(before, m, short == []) == Some(rest)
    ensures AnsweredSoFar(short + [m], rest)
  {
    var p, ms := |short|, short + [m];
    forall i: nat, q: nat ensures i < p ==> (Covers(ms, i, q) <==> Covers(short, i, q)) {
    }
    if before == [] {
      forall i: nat, q: nat ensures i < p && q > p ==> !Covers(short, i, q) {
        assert !Covers(short, i, p);
      }
      if m.Assistant? {
        assert Covers(ms, p, p + 1) && rest == ms[p].calls[p + 1 - p - 1..];
      }
    } else {
      OneMoreReply(short, before, m);
    }
  }

  lemma OpenIsUnique(short: seq<Message>, before: seq<Call>, i: nat, k: nat)
    requires AnsweredSoFar(short, before) && Covers(short, i, |short|) && Covers(short, k, |short|)
    ensures i == k
  {
    if k < i {
      assert Covers(short, k, i);
    } else if i < k {
      assert Covers(short, i, k);
    }
  }

  lemma OneMoreReply(short: seq<Message>, before: seq<Call>, m: Message)
    requires AnsweredSoFar(short, before) && before != []
    requires m.Reply? && m.callId == before[0].id && |m.content| <= TOOL_RESULT_MAX_CHARS
    ensures AnsweredSoFar(short + [m], before[1..])
  {
    var i := OpenAssistant(short, before);
    ReplyInPlace(short, before, m, i);
    ReplyIsNoStray(short, m, i);
    ReplyOpens(short, before, m, i, |short| + 1);
  }

  /** The one assistant message whose calls are not all answered yet. */
  lemma OpenAssistant(short: seq<Message>, before: seq<Call>) returns (i: nat)
    requires AnsweredSoFar(short, before) && before != []
    ensures Covers(short, i, |short|) && before == short[i].calls[|short| - i - 1..]
    ensures forall k: nat :: Covers(short, k, |short|) ==> k == i
  {
    i :| Covers(short, i, |short|) && before == short[i].calls[|short| - i - 1..];
    forall k: nat ensures Covers(short, k, |short|) ==> k == i {
      if Covers(short, k, |short|) {
        OpenIsUnique(short, before, i, k);
      }
    }
  }

  lemma ReplyIsNoStray(short: seq<Message>, m: Message, i: nat)
    requires NoStrays(short) && m.Reply? && Covers(short, i, |short|)
    ensures NoStrays(short + [m])
  {
    var ms := short + [m];
    CoversKept(short, m);
    forall p | 0 <= p < |ms| && ms[p].Reply? ensures exists k: nat :: Covers(ms, k, p) {
      if p == |short| {
        assert Covers(ms, i, p);
      } else {
        assert short[p].Reply?;
      }
    }
  }

  lemma ReplyOpens(short: seq<Message>, before: seq<Call>, m: Message, i: nat, next: nat)
    requires m.Reply? && before != [] && Covers(short, i, |short|) && before == short[i].calls[|short| - i - 1..]
    requires forall k: nat :: Covers(short, k, |short|) ==> k == i
    requires next == |short| + 1
    ensures OpenAt(short + [m], next, before[1..])
  {
    var p, ms := |short|, short + [m];
    CoversKept(short, m);
    if before[1..] != [] {
      assert Covers(ms, i, next) && before[1..] == ms[i].calls[next - i - 1..];
    } else {
      forall k: nat ensures Covers(short, k, next) ==> Covers(short, k, p) {
      }
    }
  }

  lemma CoversKept(short: seq<Message>, m: Message)
    requires !m.Assistant?
    ensures forall k: nat, q: nat :: Covers(short + [m], k, q) <==> Covers(short, k, q)
  {
  }

  lemma ReplyInPlace(short: seq<Message>, before: seq<Call>, m: Message, i: nat)
    requires RepliesInPlace(short) && before != []
    requires m.Reply? && m.callId == before[0].id && |m.content| <= TOOL_RESULT_MAX_CHARS
    requires Covers(short, i, |short|) && before == short[i].calls[|short| - i - 1..]
    requires forall k: nat :: Covers(short, k, |short|) ==> k == i
    ensures RepliesInPlace(short + [m])
  {
    CoversKept(short, m);
  }

  /** The interface's automaton accepts exactly the conversations in which every assistant message
      is followed at once by one bounded reply per call, in order, and no reply stands elsewhere. */
  lemma WellFormedIff(ms: seq<Message>)
    ensures WellFormed(ms) <==> EveryCallAnswered(ms)
  {
    if WellFormed(ms) {
      AcceptedIsAnswered(ms);
      forall i: nat | i < |ms| && ms[i].Assistant? ensures AnsweredAt(ms, i) {
        assert !Covers(ms, i, |ms|);
        forall p: nat ensures i < p <= i + |ms[i].calls| ==> Covers(ms, i, p) {
        }
      }
    }
    if EveryCallAnswered(ms) {
      AnsweredIsAccepted(ms, |ms|);
      assert ms[..|ms|] == ms;
      forall i: nat ensures !Covers(ms, i, |ms|) {
        if i < |ms| && ms[i].Assistant? {
          assert AnsweredAt(ms, i);
        }
      }
    }
  }

  // ---- What a run does ---------------------------------------------------------------------------

  /** All the calls of a conversation, in order. */
  function Calls(ms: seq<Message>): seq<Call> {
    if ms == [] then []
    else Calls(ms[..|ms| - 1]) + (if ms[|ms| - 1].Assistant? then ms[|ms| - 1].calls else [])
  }

  /** All the replies of a conversation, in order. */
  function Replies(ms: seq<Message>): seq<Message> {
    if ms == [] then []
    else Replies(ms[..|ms| - 1]) + (if ms[|ms| - 1].Reply? then [ms[|ms| - 1]] else [])
  }

  function ArgsOf(w: World, c: Call): string {
    var written := if c.arguments.None? || c.arguments.value == "" then NO_ARGS else c.arguments.value;
    var read := w.loads(written);
    if read.None? then NO_ARGS else read.value
  }

  function Clip(s: string): (r: string)
    ensures |r| <= TOOL_RESULT_MAX_CHARS && r <= s
    ensures |s| <= TOOL_RESULT_MAX_CHARS ==> r == s
  {
    if |s| <= TOOL_RESULT_MAX_CHARS then s else s[..TOOL_RESULT_MAX_CHARS]
  }

  /** The reply to a call executed as the k-th tool of the run. */
  function ReplyTo(w: World, k: nat, c: Call): Message {
    match w.tool(k, c.name, ArgsOf(w, c))
    case ToolRaised(error) => Reply(c.id, Clip(TOOL_FAILED + error))
    case Returned(_, text) => Reply(c.id, Clip(text))
  }

  ghost predicate StepMatches(w: World, k: nat, c: Call, step: Step) {
    var result := w.tool(k, c.name, ArgsOf(w, c));
    step.tool == c.name && step.args == ArgsOf(w, c) && step.elapsed >= 0.0
    && step.ok == (result.Returned? && result.ok)
  }

  /** The step took the time between this reading of the clock and the next. */
  ghost predicate TimedAt(w: World, step: Step, tick: nat) {
    step.elapsed == w.clock(tick + 1) - w.clock(tick)
  }

  /** Of the steps from number `first` on, each is timed by two readings of its own, from `tick` on. */
  ghost predicate TimedFrom(w: World, first: nat, steps: seq<Step>, tick: nat) {
    forall i: nat :: IsTimed(w, first, steps, tick, i)
  }

  ghost predicate IsTimed(w: World, first: nat, steps: seq<Step>, tick: nat, i: nat) {
    first <= i < |steps| ==> TimedAt(w, steps[i], tick + 2 * (i - first))
  }

  /** Step and reply number `k`, where there are such, are those of call number `k`. */
  ghost predicate MatchedAt(w: World, calls: seq<Call>, replies: seq<Message>, steps: seq<Step>, k: nat)
    requires |steps| == |replies| <= |calls|
  {
    k < |steps| ==> StepMatches(w, k, calls[k], steps[k]) && replies[k] == ReplyTo(w, k, calls[k])
  }

  ghost predicate Matched(w: World, calls: seq<Call>, replies: seq<Message>, steps: seq<Step>) {
    |steps| == |replies| <= |calls| && forall k :: MatchedAt(w, calls, replies, steps, k)
  }

  /** Steps, calls and replies correspond one to one. */
  ghost predicate Recorded(w: World, ms: seq<Message>, steps: seq<Step>) {
    Matched(w, Calls(ms), Replies(ms), steps)
  }

  /** The conversation so far is acceptable, and its calls, replies and steps correspond. */
  ghost predicate Ready(w: World, ms: seq<Message>, steps: seq<Step>) {
    WellFormed(ms) && Recorded(w, ms, steps) && |steps| == |Calls(ms)|
  }

  ghost predicate NonDecreasing(clock: nat -> real) {
    forall i: nat, j: nat :: i <= j ==> clock(i) <= clock(j)
  }

  /** Empty content is left out of the recorded message. */
  function Said(content: Option<string>): Option<string> {
    if content == Some("") then None else content
  }

  /** The replies to the first `n` of the calls. */
  function Turn(w: World, first: nat, calls: seq<Call>, n: nat): seq<Message>
    requires n <= |calls|
  {
    seq(n, j requires 0 <= j < n => ReplyTo(w, first + j, calls[j]))
  }

  /** The conversation after the model's answer to `r`: its calls, if any, and their replies. */
  function After(w: World, r: Request): seq<Message> {
    var a := w.client(r.messages, r.withTools);
    if a.ClientRaised? || a.calls == [] then r.messages
    else r.messages + [Assistant(Said(a.content), a.calls)] + Turn(w, |Calls(r.messages)|, a.calls, |a.calls|)
  }

  lemma PushCalls(w: World, ms: seq<Message>, steps: seq<Step>, said: Option<string>, calls: seq<Call>)
    requires WellFormed(ms) && Recorded(w, ms, steps) && calls != []
    ensures var longer := ms + [Assistant(said, calls)];
            && Awaiting(longer) == Some(calls) && Calls(longer) == Calls(ms) + calls && Recorded(w, longer, steps)
  {
    var longer := ms + [Assistant(said, calls)];
    assert longer[..|longer| - 1] == ms;
    assert Calls(longer) == Calls(ms) + calls && Replies(longer) == Replies(ms);
    MoreCallsMatched(w, Calls(ms), calls, Replies(ms), steps);
  }

  lemma OneMoreMatched(w: World, calls: seq<Call>, replies: seq<Message>, steps: seq<Step>, step: Step)
    requires Matched(w, calls, replies, steps) && |steps| < |calls|
    requires StepMatches(w, |steps|, calls[|steps|], step)
    ensures Matched(w, calls, replies + [ReplyTo(w, |steps|, calls[|steps|])], steps + [step])
  {
    forall k: nat ensures MatchedAt(w, calls, replies + [ReplyTo(w, |steps|, calls[|steps|])], steps + [step], k) {
      assert MatchedAt(w, calls, replies, steps, k);
    }
  }

  lemma MoreCallsMatched(w: World, calls: seq<Call>, more: seq<Call>, replies: seq<Message>, steps: seq<Step>)
    requires Matched(w, calls, replies, steps)
    ensures Matched(w, calls + more, replies, steps)
  {
    forall k: nat ensures MatchedAt(w, calls + more, replies, steps, k) {
      assert MatchedAt(w, calls, replies, steps, k);
    }
  }

  lemma PushReply(w: World, ms: seq<Message>, steps: seq<Step>, c: Call, step: Step)
    requires var awaiting := Awaiting(ms); awaiting.Some? && awaiting.value != [] && awaiting.value[0] == c
    requires Recorded(w, ms, steps) && |steps| < |Calls(ms)| && Calls(ms)[|steps|] == c
    requires StepMatches(w, |steps|, c, step)
    ensures var longer := ms + [ReplyTo(w, |steps|, c)];
            && Awaiting(longer) == Some(Awaiting(ms).value[1..]) && Calls(longer) == Calls(ms)
            && Recorded(w, longer, steps + [step])
  {
    var longer := ms + [ReplyTo(w, |steps|, c)];
    assert longer[..|longer| - 1] == ms;
    OneMoreMatched(w, Calls(ms), Replies(ms), steps, step);
  }

  /** The conversation while the calls of one answer are being carried out: `n` are done. */
  ghost predicate Midway(w: World, base: seq<Message>, m: Message, n: nat, ms: seq<Message>, steps: seq<Step>) {
    && m.Assistant? && n <= |m.calls|
    && Awaiting(ms) == Some(m.calls[n..])
    && Calls(ms) == Calls(base) + m.calls && |steps| == |Calls(base)| + n
    && Recorded(w, ms, steps)
  }

  lemma MidwayStep(w: World, base: seq<Message>, m: Message, n: nat, ms: seq<Message>, steps: seq<Step>, step: Step)
    requires Midway(w, base, m, n, ms, steps) && n < |m.calls|
    requires StepMatches(w, |steps|, m.calls[n], step)
    ensures Midway(w, base, m, n + 1, ms + [ReplyTo(w, |steps|, m.calls[n])], steps + [step])
  {
    PushReply(w, ms, steps, m.calls[n], step);
    assert m.calls[n..][1..] == m.calls[n + 1..];
  }

  lemma MidwayStarts(w: World, base: seq<Message>, m: Message, steps: seq<Step>)
    requires Ready(w, base, steps) && m.Assistant? && m.calls != []
    ensures Midway(w, base, m, 0, base + [m], steps)
  {
    PushCalls(w, base, steps, m.said, m.calls);
  }

  lemma MidwayEnds(w: World, base: seq<Message>, m: Message, ms: seq<Message>, steps: seq<Step>)
    requires m.Assistant? && Midway(w, base, m, |m.calls|, ms, steps)
    ensures Ready(w, ms, steps)
  {
    assert m.calls[|m.calls|..] == [];
  }

  method ExecuteCall(w: World, k: nat, c: Call, tick: nat) returns (step: Step, reply: Message)
    requires NonDecreasing(w.clock)
    ensures StepMatches(w, k, c, step) && TimedAt(w, step, tick) && reply == ReplyTo(w, k, c)
    ensures step.tool == c.name && step.elapsed == w.clock(tick + 1) - w.clock(tick) >= 0.0
    ensures c.arguments.Some? && c.arguments.value != "" ==>
              var read := w.loads(c.arguments.value); step.args == if read.Some? then read.value else "{}"
    ensures c.arguments.None? || c.arguments == Some("") ==>
              var read := w.loads("{}"); step.args == if read.Some? then read.value else "{}"
    ensures var result := w.tool(k, c.name, step.args);
            && step.ok == (result.Returned? && result.ok)
            && reply.Reply? && reply.callId == c.id
            && var text := if result.Returned? then result.text else "工具执行失败：" + result.error;
               reply.content == if |text| <= 6000 then text else text[..6000]
  {
    var written := if c.arguments.None? || c.arguments.value == "" then NO_ARGS else c.arguments.value;
    var args := NO_ARGS;
    var read := w.loads(written);
    if read.Some? {
      args := read.value;
    }
    var t0 := w.clock(tick);
    var ok, text;
    match w.tool(k, c.name, args) {
      case ToolRaised(error) => ok, text := false, TOOL_FAILED + error;
      case Returned(worked, output) => ok, text := worked, output;
    }
    var elapsed := w.clock(tick + 1) - t0;
    return Step(c.name, args, ok, elapsed), Reply(c.id, Clip(text));
  }

  /** Reply and step of a call executed as the k-th tool, timed by two readings of the clock. */
  ghost predicate IsExecution(w: World, k: nat, c: Call, tick: nat, reply: Message, step: Step) {
    reply == ReplyTo(w, k, c) && StepMatches(w, k, c, step) && TimedAt(w, step, tick)
  }

  ghost predicate CarriedAt(w: World, calls: seq<Call>, first: nat, tick: nat,
                            replies: seq<Message>, added: seq<Step>, j: nat) {
    j < |calls| && j < |replies| && j < |added| ==>
      IsExecution(w, first + j, calls[j], tick + 2 * j, replies[j], added[j])
  }

  /** The replies and steps of the first calls of an answer. */
  ghost predicate Carried(w: World, calls: seq<Call>, first: nat, tick: nat, replies: seq<Message>, added: seq<Step>) {
    |replies| == |added| <= |calls| && forall j :: CarriedAt(w, calls, first, tick, replies, added, j)
  }

  lemma CarriedNext(w: World, calls: seq<Call>, first: nat, tick: nat, replies: seq<Message>, added: seq<Step>,
                    reply: Message, step: Step)
    requires Carried(w, calls, first, tick, replies, added) && |added| < |calls|
    requires var n := |added|; IsExecution(w, first + n, calls[n], tick + 2 * n, reply, step)
    ensures Carried(w, calls, first, tick, replies + [reply], added + [step])
  {
    var more, longer := added + [step], replies + [reply];
    forall j: nat ensures CarriedAt(w, calls, first, tick, longer, more, j) {
      assert CarriedAt(w, calls, first, tick, replies, added, j);
      assert j < |added| ==> longer[j] == replies[j] && more[j] == added[j];
    }
  }

  lemma CarriedStep(w: World, base: seq<Message>, m: Message, n: nat, ms: seq<Message>, steps: seq<Step>,
                    tick: nat, reply: Message, step: Step)
    requires Midway(w, base, m, n, ms, steps) && n < |m.calls|
    requires IsExecution(w, |steps|, m.calls[n], tick, reply, step)
    ensures Midway(w, base, m, n + 1, ms + [reply], steps + [step])
  {
    MidwayStep(w, base, m, n, ms, steps, step);
  }

  lemma {:induction false} CarriedSoFar(w: World, base: seq<Message>, asked: seq<Message>, steps: seq<Step>,
                                        m: Message, tick: nat, replies: seq<Message>, added: seq<Step>, n: nat,
                                        ms: seq<Message>, done: seq<Step>)
    requires m.Assistant? && Midway(w, base, m, 0, asked, steps)
    requires Carried(w, m.calls, |steps|, tick, replies, added) && n <= |added|
    requires ms == asked + replies[..n] && done == steps + added[..n]
    ensures Midway(w, base, m, n, ms, done)
  {
    if n == 0 {
      assert ms == asked && done == steps;
    } else {
      var k := n - 1;
      var before, sooner := asked + replies[..k], steps + added[..k];
      CarriedSoFar(w, base, asked, steps, m, tick, replies, added, k, before, sooner);
      PrefixNext(asked, replies, k);
      PrefixNext(steps, added, k);
      assert CarriedAt(w, m.calls, |steps|, tick, replies, added, k);
      CarriedStep(w, base, m, k, before, sooner, tick + 2 * k, replies[k], added[k]);
    }
  }

  lemma PrefixNext<T>(head: seq<T>, s: seq<T>, n: nat)
    requires n < |s|
    ensures head + s[..n + 1] == head + s[..n] + [s[n]]
  {
  }

  /** When all calls of an answer are carried out, the conversation is acceptable again. */
  lemma CarriedOut(w: World, base: seq<Message>, steps: seq<Step>, m: Message, tick: nat,
                   replies: seq<Message>, added: seq<Step>)
    requires Ready(w, base, steps) && m.Assistant? && m.calls != []
    requires Carried(w, m.calls, |steps|, tick, replies, added) && |added| == |m.calls|
    ensures Ready(w, base + [m] + replies, steps + added)
  {
    var ms, done := base + [m] + replies, steps + added;
    assert replies[..|added|] == replies && added[..|added|] == added;
    MidwayStarts(w, base, m, steps);
    CarriedSoFar(w, base, base + [m], steps, m, tick, replies, added, |added|, ms, done);
    MidwayEnds(w, base, m, ms, done);
  }

  lemma CarriedIsTurn(w: World, calls: seq<Call>, first: nat, tick: nat, replies: seq<Message>, added: seq<Step>)
    requires Carried(w, calls, first, tick, replies, added) && |added| == |calls|
    ensures replies == Turn(w, first, calls, |calls|)
  {
    forall j | 0 <= j < |calls| ensures replies[j] == ReplyTo(w, first + j, calls[j]) {
      assert CarriedAt(w, calls, first, tick, replies, added, j);
    }
  }

  lemma CarriedIsTimed(w: World, steps: seq<Step>, calls: seq<Call>, tick: nat, replies: seq<Message>, added: seq<Step>)
    requires Carried(w, calls, |steps|, tick, replies, added)
    ensures TimedFrom(w, |steps|, steps + added, tick)
  {
    forall i: nat ensures IsTimed(w, |steps|, steps + added, tick, i) {
      if |steps| <= i < |steps| + |added| {
        assert CarriedAt(w, calls, |steps|, tick, replies, added, i - |steps|);
      }
    }
  }

  /** Carries out the calls of one answer and appends the assistant message and the replies. */
  method AnswerCalls(w: World, ms: seq<Message>, said: Option<string>, calls: seq<Call>, steps: seq<Step>, tick: nat)
    returns (longer: seq<Message>, more: seq<Step>, later: nat)
    requires NonDecreasing(w.clock) && calls != []
    requires Ready(w, ms, steps)
    ensures Ready(w, longer, more)
    ensures longer == ms + [Assistant(said, calls)] + Turn(w, |Calls(ms)|, calls, |calls|)
    ensures |more| == |steps| + |calls| && TimedFrom(w, |steps|, more, tick) && later == tick + 2 * |calls|
  {
    longer, more, later := CarryOut(w, ms + [Assistant(said, calls)], calls, steps, tick);
    ghost var replies, added := longer[|ms| + 1..], more[|steps|..];
    assert longer == ms + [Assistant(said, calls)] + replies && more == steps + added;
    CarriedOut(w, ms, steps, Assistant(said, calls), tick, replies, added);
    CarriedIsTurn(w, calls, |steps|, tick, replies, added);
    CarriedIsTimed(w, steps, calls, tick, replies, added);
  }

  /** The loop over the calls: each is executed, recorded and answered. */
  method CarryOut(w: World, asked: seq<Message>, calls: seq<Call>, steps: seq<Step>, tick: nat)
    returns (longer: seq<Message>, more: seq<Step>, later: nat)
    requires NonDecreasing(w.clock)
    ensures asked <= longer && steps <= more && later == tick + 2 * |calls|
    ensures |more| == |steps| + |calls|
    ensures Carried(w, calls, |steps|, tick, longer[|asked|..], more[|steps|..])
  {
    longer, more, later := asked, steps, tick;
    ghost var replies: seq<Message>, added: seq<Step> := [], [];
    for n := 0 to |calls|
      invariant longer == asked + replies && more == steps + added && |added| == n && later == tick + 2 * n
      invariant Carried(w, calls, |steps|, tick, replies, added)
    {
      var step, reply := ExecuteCall(w, |more|, calls[n], later);
      CarriedNext(w, calls, |steps|, tick, replies, added, reply, step);
      replies, added := replies + [reply], added + [step];
      longer, more, later := longer + [reply], more + [step], later + 2;
    }
    assert longer[|asked|..] == replies && more[|steps|..] == added;
  }

  /** `msg.content or ""`. */
  function TextOf(content: Option<string>): string {
    if content.None? then "" else content.value
  }

  /** Where the conversation stands after the requests made so far. */
  function Continued(w: World, opening: seq<Message>, sent: seq<Request>): seq<Message> {
    if sent == [] then opening else After(w, sent[|sent| - 1])
  }

  /** What a request adds to the conversation: the one made without tools, the instruction to converge. */
  function Shown(ms: seq<Message>, withTools: bool): seq<Message> {
    if withTools then ms else ms + [User(CONVERGE)]
  }

  /** Request `k` carries on from what the answer to the one before it led to. */
  ghost predicate CarriesOn(w: World, opening: seq<Message>, sent: seq<Request>, k: nat) {
    k < |sent| ==> sent[k].messages == Shown(Continued(w, opening, sent[..k]), sent[k].withTools)
  }

  ghost predicate Chained(w: World, opening: seq<Message>, sent: seq<Request>) {
    forall k :: CarriesOn(w, opening, sent, k)
  }

  /** Every request shows the model strictly more than the one before, so no two requests of a run
      are the same: a function of the request is as general as any behaviour of the model. */
  lemma ConversationGrows(w: World, opening: seq<Message>, sent: seq<Request>, k: nat)
    requires Chained(w, opening, sent) && k + 1 < |sent|
    requires sent[k + 1].withTools ==> AsksForTools(w, sent[k])
    ensures sent[k].messages < sent[k + 1].messages
  {
    assert CarriesOn(w, opening, sent, k + 1);
    assert Continued(w, opening, sent[..k + 1]) == After(w, sent[k]);
  }

  /** The model's answer to `r` ends the rounds without giving a report. */
  predicate SaysNothing(w: World, r: Request) {
    var a := w.client(r.messages, r.withTools);
    a.Answered? && a.calls == [] && TextOf(a.content) == ""
  }

  predicate AsksForTools(w: World, r: Request) {
    var a := w.client(r.messages, r.withTools);
    a.Answered? && a.calls != []
  }

  /** A request with tools: in time, acceptable, and answered with calls if another follows. */
  ghost predicate IsRound(w: World, deadline: real, sent: seq<Request>, k: nat) {
    k < |sent| ==>
      && sent[k].withTools && sent[k].checked < deadline && WellFormed(sent[k].messages)
      && (k + 1 < |sent| ==> AsksForTools(w, sent[k]))
  }

  ghost predicate InRounds(w: World, deadline: real, sent: seq<Request>) {
    |sent| <= AGENT_MAX_ROUNDS && forall k :: IsRound(w, deadline, sent, k)
  }

  /** How a run may end: the client raised; or the last answer is a report; or, rounds or time being
      spent or the last answer being empty, whatever the model said when asked without tools. */
  ghost predicate Ended(w: World, deadline: real, sent: seq<Request>, report: Option<string>)
    requires sent != []
  {
    var before, last := sent[..|sent| - 1], sent[|sent| - 1];
    var a := w.client(last.messages, last.withTools);
    && report == (if a.ClientRaised? then None else Some(TextOf(a.content)))
    && if last.withTools then
         && InRounds(w, deadline, sent)
         && (a.ClientRaised? || (a.calls == [] && TextOf(a.content) != ""))
       else
         && InRounds(w, deadline, before) && WellFormed(last.messages)
         && (|before| == AGENT_MAX_ROUNDS || last.checked >= deadline
             || (before != [] && SaysNothing(w, before[|before| - 1])))
         && (before != [] ==> AsksForTools(w, before[|before| - 1]) || SaysNothing(w, before[|before| - 1]))
  }

  /** Between two rounds. */
  ghost predicate Underway(w: World, opening: seq<Message>, deadline: real, sent: seq<Request>,
                           ms: seq<Message>, steps: seq<Step>) {
    && InRounds(w, deadline, sent) && Chained(w, opening, sent)
    && ms == Continued(w, opening, sent) && Ready(w, ms, steps)
  }

  /** One more request with tools. */
  lemma RoundsGrow(w: World, opening: seq<Message>, deadline: real, sent: seq<Request>, r: Request, steps: seq<Step>)
    requires Underway(w, opening, deadline, sent, r.messages, steps) && |sent| < AGENT_MAX_ROUNDS
    requires sent != [] ==> AsksForTools(w, sent[|sent| - 1])
    requires r.withTools && r.checked < deadline
    ensures forall ms, more :: ms == After(w, r) && Ready(w, ms, more) ==>
              Underway(w, opening, deadline, sent + [r], ms, more)
  {
    ChainGrows(w, opening, sent, r);
    forall k: nat ensures IsRound(w, deadline, sent + [r], k) {
      assert IsRound(w, deadline, sent, k);
    }
  }

  lemma ChainGrows(w: World, opening: seq<Message>, sent: seq<Request>, r: Request)
    requires Chained(w, opening, sent)
    requires r.messages == Shown(Continued(w, opening, sent), r.withTools)
    ensures Chained(w, opening, sent + [r])
  {
    var longer := sent + [r];
    forall k: nat ensures CarriesOn(w, opening, longer, k) {
      assert CarriesOn(w, opening, sent, k);
      if k <= |sent| {
        assert longer[..k] == sent[..k];
      }
    }
  }

  /** How the rounds may end. */
  ghost predicate Gathered(w: World, deadline: real, sent: seq<Request>, checked: real, raised: bool, text: string) {
    if raised || text != "" then
      && sent != []
      && var a := w.client(sent[|sent| - 1].messages, true);
         if raised then a.ClientRaised? else a.Answered? && a.calls == [] && text == TextOf(a.content)
    else
      && (|sent| == AGENT_MAX_ROUNDS || checked >= deadline || (sent != [] && SaysNothing(w, sent[|sent| - 1])))
      && (sent != [] ==> AsksForTools(w, sent[|sent| - 1]) || SaysNothing(w, sent[|sent| - 1]))
  }

  /** The rounds with tools; `text` is the report, if the model gave one. */
  method Gather(w: World, opening: seq<Message>, deadline: real)
    returns (raised: bool, text: string, messages: seq<Message>, steps: seq<Step>, sent: seq<Request>, checked: real)
    requires NonDecreasing(w.clock) && Ready(w, opening, [])
    ensures Underway(w, opening, deadline, sent, messages, steps)
    ensures raised || text != "" ==> sent != [] && messages == sent[|sent| - 1].messages
    ensures Gathered(w, deadline, sent, checked, raised, text)
  {
    var rounds, tick := 0, 1;
    raised, text, messages, steps, sent, checked := false, "", opening, [], [], w.clock(0);
    while rounds < AGENT_MAX_ROUNDS
      invariant rounds == |sent| <= AGENT_MAX_ROUNDS && !raised && text == ""
      invariant Underway(w, opening, deadline, sent, messages, steps)
      invariant sent != [] ==> AsksForTools(w, sent[|sent| - 1])
      decreases AGENT_MAX_ROUNDS - rounds
    {
      checked := w.clock(tick);
      tick := tick + 1;
      if checked >= deadline {
        return;
      }
      rounds := rounds + 1;
      var r := Request(messages, true, checked);
      RoundsGrow(w, opening, deadline, sent, r, steps);
      sent := sent + [r];
      match w.client(messages, true) {
        case ClientRaised =>
          raised := true;
          return;
        case Answered(content, calls) =>
          if calls == [] {
            text := TextOf(content);
            return;
          }
          messages, steps, tick := AnswerCalls(w, messages, Said(content), calls, steps, tick);
      }
    }
  }

  /** All requests but the last are made with tools; those with tools are eight at most, and in time. */
  ghost predicate IsTimely(sent: seq<Request>, deadline: real) {
    && (forall k :: 0 <= k < |sent| - 1 ==> sent[k].withTools)
    && (forall k :: 0 <= k < |sent| && sent[k].withTools ==> sent[k].checked < deadline && k < 8)
  }

  /** A request without tools comes after eight rounds, past the deadline, or upon an answer with neither calls
      nor text. */
  predicate IsForcedRightly(w: World, sent: seq<Request>, deadline: real) {
    var n := |sent| - 1;
    n >= 0 && !sent[n].withTools ==>
      || n == 8 || sent[n].checked >= deadline
      || (n > 0 && var a := w.client(sent[n - 1].messages, sent[n - 1].withTools);
                   a.Answered? && a.calls == [] && (a.content.None? || a.content == Some("")))
  }

  /** The report is the text of the answer to the request, empty for none; there is none if the client raised. */
  predicate IsReportOf(w: World, r: Request, report: Option<string>) {
    match w.client(r.messages, r.withTools)
    case ClientRaised => report == None
    case Answered(content, _) => report == if content.Some? then content else Some("")
  }

  /** A run in terms of its requests: numbers, times, and what the report is. */
  lemma EndedMeaning(w: World, deadline: real, sent: seq<Request>, report: Option<string>)
    requires sent != [] && Ended(w, deadline, sent, report)
    ensures 1 <= |sent| <= 9 && IsReportOf(w, sent[|sent| - 1], report)
    ensures IsTimely(sent, deadline) && IsForcedRightly(w, sent, deadline)
  {
    var n := |sent| - 1;
    var rounds := if sent[n].withTools then sent else sent[..n];
    forall k | 0 <= k < |rounds|
      ensures rounds[k] == sent[k] && rounds[k].withTools && rounds[k].checked < deadline
    {
      assert IsRound(w, deadline, rounds, k);
    }
  }

  /** A request without tools ends with the instruction to report now. */
  lemma AskedToConverge(w: World, opening: seq<Message>, sent: seq<Request>, k: nat)
    requires Chained(w, opening, sent) && k < |sent| && !sent[k].withTools
    ensures var ms, before := sent[k].messages, Continued(w, opening, sent[..k]);
            ms == before + [User("诊断预算已用完，请立即基于已获取的信息输出最终报告，不要再调用工具。")]
  {
    assert CarriesOn(w, opening, sent, k);
  }

  /** The final request without tools. */
  lemma ChainEnds(w: World, opening: seq<Message>, deadline: real, sent: seq<Request>, r: Request,
                  ms: seq<Message>, steps: seq<Step>)
    requires Underway(w, opening, deadline, sent, ms, steps)
    requires !r.withTools && r.messages == ms + [User(CONVERGE)]
    ensures Chained(w, opening, sent + [r]) && Ready(w, r.messages, steps)
  {
    PushUser(w, ms, steps);
    ChainGrows(w, opening, sent, r);
  }

  lemma PlainEnds(w: World, deadline: real, sent: seq<Request>, checked: real, raised: bool, text: string)
    requires InRounds(w, deadline, sent) && Gathered(w, deadline, sent, checked, raised, text) && (raised || text != "")
    ensures sent != [] && Ended(w, deadline, sent, if raised then None else Some(text))
  {
    assert IsRound(w, deadline, sent, |sent| - 1);
  }

  lemma ForcedEnds(w: World, deadline: real, sent: seq<Request>, r: Request)
    requires InRounds(w, deadline, sent) && Gathered(w, deadline, sent, r.checked, false, "")
    requires !r.withTools && WellFormed(r.messages)
    ensures var a := w.client(r.messages, false);
            Ended(w, deadline, sent + [r], if a.ClientRaised? then None else Some(TextOf(a.content)))
  {
    assert (sent + [r])[..|sent|] == sent;
  }

  method Run(w: World, system: string, question: string)
    returns (report: Option<string>, steps: seq<Step>, sent: seq<Request>)
    requires NonDecreasing(w.clock)
    ensures 1 <= |sent| <= 9 && IsReportOf(w, sent[|sent| - 1], report)
    ensures IsTimely(sent, w.clock(0) + 240.0) && IsForcedRightly(w, sent, w.clock(0) + 240.0)
    ensures Chained(w, [System(system), User(question)], sent)
    ensures Ended(w, w.clock(0) + AGENT_DEADLINE_SECONDS, sent, report)
    ensures Ready(w, sent[|sent| - 1].messages, steps)
  {
    var deadline := w.clock(0) + AGENT_DEADLINE_SECONDS;
    var opening := [System(system), User(question)];
    OpeningIsReady(w, system, question);
    var raised, text, messages, done, asked, checked := Gather(w, opening, deadline);
    steps, sent := done, asked;
    if raised || text != "" {
      PlainEnds(w, deadline, asked, checked, raised, text);
    }
    if raised {
      EndedMeaning(w, deadline, sent, None);
      return None, steps, sent;
    }
    if text == "" {
      var last := Request(messages + [User(CONVERGE)], false, checked);
      ChainEnds(w, opening, deadline, asked, last, messages, steps);
      ForcedEnds(w, deadline, asked, last);
      sent := asked + [last];
      match w.client(last.messages, false) {
        case ClientRaised =>
          EndedMeaning(w, deadline, sent, None);
          return None, steps, sent;
        case Answered(content, _) => text := TextOf(content);
      }
    }
    EndedMeaning(w, deadline, sent, Some(text));
    report := Some(text);
  }

  /** What an answer with calls adds: the message with its text, if it has one, and a reply for each call in order. */
  lemma AfterMeaning(w: World, r: Request, content: Option<string>, calls: seq<Call>)
    requires w.client(r.messages, r.withTools) == Answered(content, calls) && calls != []
    ensures var ms, n := After(w, r), |r.messages|;
            && |ms| == n + 1 + |calls| && ms[..n] == r.messages
            && ms[n] == Assistant(if content == Some("") then None else content, calls)
            && ms[n + 1..] == Turn(w, |Calls(r.messages)|, calls, |calls|)
  {
    var m := Assistant(Said(content), calls);
    var turn := Turn(w, |Calls(r.messages)|, calls, |calls|);
    assert After(w, r) == r.messages + [m] + turn;
    CutAfter(r.messages, m, turn);
  }

  lemma CutAfter(head: seq<Message>, m: Message, turn: seq<Message>)
    ensures var ms := head + [m] + turn;
            ms[..|head|] == head && ms[|head|] == m && ms[|head| + 1..] == turn
  {
  }

  /** Reply number `j` answers call number `j`: its id, and the first 6000 characters of what the tool said. */
  lemma TurnMeaning(w: World, first: nat, calls: seq<Call>, j: nat)
    requires j < |calls|
    ensures var c, turn := calls[j], Turn(w, first, calls, |calls|);
            && |turn| == |calls| && turn[j].Reply? && turn[j].callId == c.id
            && var result := w.tool(first + j, c.name, ArgsOf(w, c));
               var text := if result.Returned? then result.text else "工具执行失败：" + result.error;
               turn[j].content == if |text| <= 6000 then text else text[..6000]
  {
  }

  lemma OpeningIsReady(w: World, system: string, question: string)
    ensures var ms := [System(system), User(question)]; WellFormed(ms) && Calls(ms) == [] && Recorded(w, ms, [])
  {
    var ms := [System(system), User(question)];
    var one := [System(system)];
    assert one[..|one| - 1] == [];
    assert Awaiting(one) == Some([]);
    assert Calls(one) == [] + [];
    assert Replies(one) == [] + [];
    assert ms[..|ms| - 1] == one;
  }

  lemma PushUser(w: World, ms: seq<Message>, steps: seq<Step>)
    requires WellFormed(ms) && Recorded(w, ms, steps)
    ensures var longer := ms + [User(CONVERGE)];
            WellFormed(longer) && Calls(longer) == Calls(ms) && Recorded(w, longer, steps)
  {
    var longer := ms + [User(CONVERGE)];
    assert longer[..|longer| - 1] == ms;
    assert Calls(longer) == Calls(ms) && Replies(longer) == Replies(ms);
  }
}
