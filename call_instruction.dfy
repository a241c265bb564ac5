/**
 * The `Call` instruction: builds the callee's frame on top of the caller's, binds
 * the staged arguments into it, records the call, and transfers control to the
 * callee's first instruction.
 */
module CallInstructions {
  import opened Wrappers
  import opened Runtime
  import Text

  /** The entries `n` successive pops take off `stack`, in pop order (the top first). */
  function PopMany(stack: seq<Argument>, n: nat): seq<Argument>
    requires n <= |stack|
    decreases n
  {
    if n == 0 then [] else [stack[|stack| - 1]] + PopMany(stack[..|stack| - 1], n - 1)
  }

  /** Popping `n` entries yields the top `n` entries of the stack, in reverse push order. */
  lemma {:induction false} PopManyReversesTop(stack: seq<Argument>, n: nat)
    requires n <= |stack|
    ensures |PopMany(stack, n)| == n
    ensures forall j :: 0 <= j < n ==> PopMany(stack, n)[j] == stack[|stack| - 1 - j]
    decreases n
  {
    if n > 0 {
      PopManyReversesTop(stack[..|stack| - 1], n - 1);
    }
  }

  /** One more pop appends the next entry down to what was already popped. */
  lemma PopManyOneMore(stack: seq<Argument>, n: nat)
    requires n < |stack|
    ensures PopMany(stack, n + 1) == PopMany(stack, n) + [stack[|stack| - 1 - n]]
  {
    PopManyReversesTop(stack, n);
    PopManyReversesTop(stack, n + 1);
  }

  /** One more pop from the top `n` entries: the next entry down, bound after the others. */
  lemma PopOneMore(stack: seq<Argument>, n: nat, frame: Frame)
    requires n < |stack|
    ensures var next := stack[|stack| - 1 - n];
            && stack[..|stack| - n][|stack| - n - 1] == next
            && stack[..|stack| - n][..|stack| - n - 1] == stack[..|stack| - (n + 1)]
            && PopMany(stack, n + 1) == PopMany(stack, n) + [next]
            && Bind(frame, PopMany(stack, n + 1)) == Bind(frame, PopMany(stack, n)).Set(next.id, next.value)
  {
    PopManyOneMore(stack, n);
    var popped := PopMany(stack, n + 1);
    assert popped[..|popped| - 1] == PopMany(stack, n);
  }

  /** The frame after writing `args` through its indexer, first to last. */
  function Bind(frame: Frame, args: seq<Argument>): (r: Frame)
    ensures r.number == frame.number && r.parent == frame.parent
    decreases |args|
  {
    if args == [] then frame
    else
      var last := args[|args| - 1];
      Bind(frame, args[..|args| - 1]).Set(last.id, last.value)
  }

  /** After binding `args`, a name is bound iff it was bound before or some argument carries it. */
  lemma {:induction false} BindKeys(frame: Frame, args: seq<Argument>, id: Name)
    ensures id in Bind(frame, args).vars <==> id in frame.vars || exists j :: 0 <= j < |args| && args[j].id == id
    decreases |args|
  {
    if args != [] {
      var init := args[..|args| - 1];
      BindKeys(frame, init, id);
      assert forall j :: 0 <= j < |init| ==> init[j] == args[j];
    }
  }

  /** A name that no argument carries keeps the value it had. */
  lemma {:induction false} BindKeepsOthers(frame: Frame, args: seq<Argument>, id: Name)
    requires id in frame.vars
    requires forall j :: 0 <= j < |args| ==> args[j].id != id
    ensures id in Bind(frame, args).vars && Bind(frame, args).vars[id] == frame.vars[id]
    decreases |args|
  {
    if args != [] {
      BindKeepsOthers(frame, args[..|args| - 1], id);
    }
  }

  /** The last argument carrying a name supplies its value: a later write overwrites an earlier one. */
  lemma {:induction false} BindLastWriteWins(frame: Frame, args: seq<Argument>, j: nat)
    requires j < |args|
    requires forall k :: j < k < |args| ==> args[k].id != args[j].id
    ensures args[j].id in Bind(frame, args).vars && Bind(frame, args).vars[args[j].id] == args[j].value
    decreases |args|
  {
    if j < |args| - 1 {
      var init := args[..|args| - 1];
      assert init[j] == args[j];
      BindLastWriteWins(frame, init, j);
    }
  }

  /** Arguments with pairwise distinct names. */
  predicate DistinctIds(args: seq<Argument>) {
    forall i, j :: 0 <= i < j < |args| ==> args[i].id != args[j].id
  }

  /** Binding arguments with distinct fresh names adds exactly one binding per argument. */
  lemma {:induction false} BindAddsOnePerArgument(frame: Frame, args: seq<Argument>)
    requires DistinctIds(args)
    requires forall j :: 0 <= j < |args| ==> args[j].id !in frame.vars
    ensures |Bind(frame, args).vars| == |frame.vars| + |args|
    decreases |args|
  {
    if args != [] {
      var init := args[..|args| - 1];
      var last := args[|args| - 1];
      BindAddsOnePerArgument(frame, init);
      var before := Bind(frame, init).vars;
      BindKeys(frame, init, last.id);
      assert last.id !in before;
      assert before[last.id := last.value].Keys == before.Keys + {last.id};
    }
  }

  /**
   * `Call f, n` with an optional assignment target `left`. `number` is the
   * instruction's own index; the instruction after it is the resume point.
   */
  datatype CallInstruction = CallInstruction(callee: FunctionInfo, number: int, numberOfArguments: int, left: Option<Name>) {

    /** The static control-transfer target: the callee's entry. */
    function Jump(): int {
      callee.location
    }

    /** How many pops the argument loop performs: `while (i < n)` runs no iteration when n <= 0. */
    function PopCount(): nat {
      if numberOfArguments < 0 then 0 else numberOfArguments
    }

    /** The frame a successful call pushes, given the stacks before it. */
    function CalleeFrame(st: State): Frame
      requires |st.frames| > 0 && PopCount() <= |st.arguments|
    {
      Bind(Frame(number + 1, Some(|st.frames| - 1), map[]), PopMany(st.arguments, PopCount()))
    }

    /**
     * One execution of the instruction on the stacks `st`. Peek on an empty frame
     * stack faults before anything changes; running out of arguments faults after
     * the loop has popped every remaining entry; otherwise the new frame and the
     * call record are pushed and control goes to the callee.
     */
    function Step(st: State): (t: Transition)
      requires WellFormed(st.frames)
      ensures WellFormed(t.after.frames)
      ensures t.next.Ok? <==> |st.frames| > 0 && PopCount() <= |st.arguments|
      ensures t.next.Ok? ==> t.next.value == Jump()
      ensures |st.frames| == 0 ==> t == Transition(Err(EmptyStack(FrameStack)), st)
      ensures |st.frames| > 0 && |st.arguments| < PopCount() ==>
                t == Transition(Err(EmptyStack(ArgumentStack)), st.(arguments := []))
      ensures |t.after.frames| - |t.after.callStack| == |st.frames| - |st.callStack|
      ensures t.next.Ok? ==>
                && t.after.arguments == st.arguments[..|st.arguments| - PopCount()]
                && t.after.frames == st.frames + [CalleeFrame(st)]
                && t.after.callStack == st.callStack + [Call(number, callee, PopMany(st.arguments, PopCount()), left)]
      ensures t.next.Ok? ==>
                && t.after.frames[|st.frames|].number == t.after.callStack[|st.callStack|].number + 1
                && t.after.frames[|st.frames|].parent == Some(|st.frames| - 1)
    {
      if |st.frames| == 0 then
        Transition(Err(EmptyStack(FrameStack)), st)
      else if |st.arguments| < PopCount() then
        Transition(Err(EmptyStack(ArgumentStack)), st.(arguments := []))
      else
        var k := PopCount();
        var popped := PopMany(st.arguments, k);
        Transition(
          Ok(callee.location),
          State(st.frames + [CalleeFrame(st)],
                st.arguments[..|st.arguments| - k],
                st.callStack + [Call(number, callee, popped, left)]))
    }

    method Execute(vm: VirtualMachine) returns (next: Result<int, Fault>)
      requires vm.Valid()
      modifies vm
      ensures vm.Valid()
      ensures Transition(next, vm.Snapshot()) == Step(old(vm.Snapshot()))
    {
      if |vm.Frames| == 0 {
        return Err(EmptyStack(FrameStack));
      }
      var frame := Frame(number + 1, Some(|vm.Frames| - 1), map[]);
      ghost var start := frame;
      ghost var stack := vm.Arguments;

      var i := 0;
      var args: seq<Argument> := [];
      while i < numberOfArguments
        invariant 0 <= i <= PopCount() && i <= |stack|
        invariant vm.Arguments == stack[..|stack| - i]
        invariant args == PopMany(stack, i)
        invariant frame == Bind(start, args)
        invariant vm.Frames == old(vm.Frames) && vm.CallStack == old(vm.CallStack)
      {
        if |vm.Arguments| == 0 {
          return Err(EmptyStack(ArgumentStack));
        }
        var top := vm.Arguments[|vm.Arguments| - 1];
        PopOneMore(stack, i, start);
        vm.Arguments := vm.Arguments[..|vm.Arguments| - 1];
        args := args + [top];
        frame := frame.Set(top.id, top.value);
        i := i + 1;
      }

      vm.CallStack := vm.CallStack + [Call(number, callee, args, left)];
      vm.Frames := vm.Frames + [frame];
      return Ok(callee.location);
    }

    /** A name is bound in the callee frame iff one of the popped entries carries it. */
    lemma CalleeFrameKeys(st: State, id: Name)
      requires |st.frames| > 0 && PopCount() <= |st.arguments|
      ensures var s, k := st.arguments, PopCount();
              id in CalleeFrame(st).vars <==> exists q :: |s| - k <= q < |s| && s[q].id == id
    {
      var s, k := st.arguments, PopCount();
      var popped := PopMany(s, k);
      PopManyReversesTop(s, k);
      BindKeys(Frame(number + 1, Some(|st.frames| - 1), map[]), popped, id);
      if id in CalleeFrame(st).vars {
        var j :| 0 <= j < |popped| && popped[j].id == id;
        assert s[|s| - 1 - j].id == id;
      }
      if exists q :: |s| - k <= q < |s| && s[q].id == id {
        var q :| |s| - k <= q < |s| && s[q].id == id;
        assert popped[|s| - 1 - q].id == id;
      }
    }

    /**
     * The deepest popped entry carrying a name supplies that name's value, being written
     * last: the loop binds in pop order, so a name staged more than once holds the value
     * of its earliest pushed occurrence.
     */
    lemma CalleeFrameValue(st: State, q: nat)
      requires |st.frames| > 0 && PopCount() <= |st.arguments|
      requires |st.arguments| - PopCount() <= q < |st.arguments|
      requires forall q' :: |st.arguments| - PopCount() <= q' < q ==> st.arguments[q'].id != st.arguments[q].id
      ensures st.arguments[q].id in CalleeFrame(st).vars
      ensures CalleeFrame(st).vars[st.arguments[q].id] == st.arguments[q].value
    {
      var s, k := st.arguments, PopCount();
      var id := s[q].id;
      var popped := PopMany(s, k);
      PopManyReversesTop(s, k);
      var j := |s| - 1 - q;
      assert popped[j] == s[q];
      forall j' | j < j' < |popped| ensures popped[j'].id != popped[j].id {
        assert popped[j'] == s[|s| - 1 - j'];
      }
      BindLastWriteWins(Frame(number + 1, Some(|st.frames| - 1), map[]), popped, j);
    }

    /**
     * Scope chain through the new frame: a name the call bound resolves to its
     * argument, and any other name resolves exactly as it did in the caller's frame.
     */
    lemma CalleeSeesCallerScope(st: State, id: Name)
      requires WellFormed(st.frames) && |st.frames| > 0 && PopCount() <= |st.arguments|
      ensures var after := Step(st).after.frames;
              id in CalleeFrame(st).vars ==> Lookup(after, |after| - 1, id) == Some(CalleeFrame(st).vars[id])
      ensures var after := Step(st).after.frames;
              id !in CalleeFrame(st).vars ==> Lookup(after, |after| - 1, id) == Lookup(st.frames, |st.frames| - 1, id)
    {
      var after := Step(st).after.frames;
      assert after == st.frames + [CalleeFrame(st)];
      if id !in CalleeFrame(st).vars {
        LookupIgnoresFramesAbove(st.frames, [CalleeFrame(st)], |st.frames| - 1, id);
      }
    }

    /** The debug rendering: `Call f, n`, prefixed by `left = ` when the result is assigned. */
    function ToStringRepresentation(): string {
      match left
      case None => "Call " + callee.ToString() + ", " + Text.IntToString(numberOfArguments)
      case Some(target) => target + " = Call " + callee.ToString() + ", " + Text.IntToString(numberOfArguments)
    }
  }

  /** What a rendered Call line says: the assignment target, the callee's text and the argument count. */
  datatype CallText = CallText(left: Option<Name>, callee: string, count: int)

  /** Reads a rendered Call line back; None when the text has neither rendering's shape. */
  function ParseCall(text: string): Option<CallText> {
    var words := Text.Split(text);
    if |words| == 3 && words[0] == "Call" then ParseCallTail(None, words[1], words[2])
    else if |words| == 5 && words[1] == "=" && words[2] == "Call" then ParseCallTail(Some(words[0]), words[3], words[4])
    else None
  }

  function ParseCallTail(left: Option<Name>, calleeWord: string, countWord: string): Option<CallText> {
    if |calleeWord| > 0 && calleeWord[|calleeWord| - 1] == ',' then
      match Text.ParseInt(countWord)
      case Some(n) => Some(CallText(left, calleeWord[..|calleeWord| - 1], n))
      case None => None
    else None
  }

  /** Solver hint: regroups the rendered line around its spaces. */
  lemma CallLineShape(f: string, n: string)
    ensures "Call " + f + ", " + n == "Call" + " " + ((f + ",") + " " + n)
  {
  }

  lemma WordsFromCallKeyword(f: string, n: string)
    requires ' ' !in f && ' ' !in n
    ensures Text.Split("Call" + " " + ((f + ",") + " " + n)) == ["Call", f + ",", n]
  {
    assert ' ' !in "Call" && ' ' !in f + ",";
    Text.SplitTwoLeadingWords("Call", f + ",", n);
  }

  /** The words of `Call f, n` when neither `f` nor `n` contains a space. */
  lemma CallWords(f: string, n: string)
    requires ' ' !in f && ' ' !in n
    ensures Text.Split("Call " + f + ", " + n) == ["Call", f + ",", n]
  {
    CallLineShape(f, n);
    WordsFromCallKeyword(f, n);
  }

  /** Solver hint: regroups an assignment line around its spaces. */
  lemma TargetLineShape(target: string, f: string, n: string)
    ensures target + " = Call " + f + ", " + n == target + " " + ("=" + " " + ("Call" + " " + ((f + ",") + " " + n)))
  {
  }

  /** The words of `x = Call f, n` when none of `x`, `f`, `n` contains a space. */
  lemma TargetLineWords(target: string, f: string, n: string)
    requires ' ' !in target && ' ' !in f && ' ' !in n
    ensures Text.Split(target + " = Call " + f + ", " + n) == [target, "=", "Call", f + ",", n]
  {
    TargetLineShape(target, f, n);
    assert ' ' !in "=" && ' ' !in "Call" && ' ' !in f + ",";
    Text.SplitLeadingWord(f + ",", n);
    Text.SplitThreeLeadingWords(target, "=", "Call", (f + ",") + " " + n);
    assert Text.Split(n) == [n];
  }

  /** The last two words of a Call line read back as the callee and the count. */
  lemma TailParsesBack(left: Option<Name>, f: string, count: int)
    ensures ParseCallTail(left, f + ",", Text.IntToString(count)) == Some(CallText(left, f, count))
  {
    Text.ParseIntToString(count);
    assert (f + ",")[..|f|] == f;
  }

  /** How a Call line without a target reads back. */
  lemma PlainLineParsesBack(f: string, count: int)
    requires ' ' !in f
    ensures ParseCall("Call " + f + ", " + Text.IntToString(count)) == Some(CallText(None, f, count))
  {
    var n := Text.IntToString(count);
    CallWords(f, n);
    TailParsesBack(None, f, count);
  }

  /** How a Call line with a target reads back. */
  lemma TargetLineParsesBack(target: string, f: string, count: int)
    requires ' ' !in target && ' ' !in f
    ensures ParseCall(target + " = Call " + f + ", " + Text.IntToString(count)) == Some(CallText(Some(target), f, count))
  {
    var n := Text.IntToString(count);
    TargetLineWords(target, f, n);
    TailParsesBack(Some(target), f, count);
  }

  /**
   * The rendering loses nothing: for a callee and a target without spaces (as
   * identifiers are), parsing it back gives the target, the callee and the count.
   */
  lemma RenderingParsesBack(c: CallInstruction)
    requires ' ' !in c.callee.id
    requires c.left.Some? ==> ' ' !in c.left.value
    ensures ParseCall(c.ToStringRepresentation()) == Some(CallText(c.left, c.callee.id, c.numberOfArguments))
  {
    match c.left
    case None => PlainLineParsesBack(c.callee.id, c.numberOfArguments);
    case Some(target) => TargetLineParsesBack(target, c.callee.id, c.numberOfArguments);
  }
}
