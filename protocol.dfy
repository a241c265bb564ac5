/**
 * The hand-off between call site and callee: a run of PushParameter instructions
 * stages the arguments that the following Call consumes.
 */
module Protocol {
  import opened Wrappers
  import opened Runtime
  import opened CallInstructions
  import opened PushParameterInstructions

  /** Every staged operand evaluates in the caller's frame (the top of `frames`). */
  predicate AllEvaluate(pushes: seq<PushParameterInstruction>, frames: seq<Frame>)
    requires WellFormed(frames) && |frames| > 0
  {
    forall j :: 0 <= j < |pushes| ==> pushes[j].value.Get(frames, |frames| - 1).Ok?
  }

  /** The `(name, value)` pairs the pushes stage, in push order. */
  function Staged(pushes: seq<PushParameterInstruction>, frames: seq<Frame>): seq<Argument>
    requires WellFormed(frames) && |frames| > 0 && AllEvaluate(pushes, frames)
  {
    seq(|pushes|, j requires 0 <= j < |pushes| =>
      Argument(pushes[j].parameter, pushes[j].value.Get(frames, |frames| - 1).value))
  }

  /** Executes the pushes in program order, stopping at the first fault. */
  function RunPushes(pushes: seq<PushParameterInstruction>, st: State): (r: Result<State, Fault>)
    requires WellFormed(st.frames)
    ensures r.Ok? ==> r.value.frames == st.frames && r.value.callStack == st.callStack
    ensures r.Ok? ==> |r.value.arguments| == |st.arguments| + |pushes| && r.value.arguments[..|st.arguments|] == st.arguments
    decreases |pushes|
  {
    if pushes == [] then Ok(st)
    else
      var t := pushes[0].Step(st);
      if t.next.Err? then Err(t.next.error) else RunPushes(pushes[1..], t.after)
  }

  /** Solver hint: staging a run of pushes stages its first push, then the rest. */
  lemma StagedFirst(pushes: seq<PushParameterInstruction>, frames: seq<Frame>)
    requires WellFormed(frames) && |frames| > 0 && AllEvaluate(pushes, frames) && pushes != []
    ensures AllEvaluate(pushes[1..], frames)
    ensures Staged(pushes, frames) == [Staged(pushes, frames)[0]] + Staged(pushes[1..], frames)
  {
    var rest := pushes[1..];
    forall j | 0 <= j < |rest| ensures rest[j].value.Get(frames, |frames| - 1).Ok? {
      assert rest[j] == pushes[j + 1];
    }
  }

  /** Pushes that all evaluate append exactly what they stage and change nothing else. */
  lemma {:induction false} RunPushesStages(pushes: seq<PushParameterInstruction>, st: State)
    requires WellFormed(st.frames) && |st.frames| > 0 && AllEvaluate(pushes, st.frames)
    ensures RunPushes(pushes, st) == Ok(st.(arguments := st.arguments + Staged(pushes, st.frames)))
    decreases |pushes|
  {
    var staged := Staged(pushes, st.frames);
    if pushes != [] {
      StagedFirst(pushes, st.frames);
      var t := pushes[0].Step(st);
      var after := st.(arguments := st.arguments + [staged[0]]);
      assert t == Transition(Ok(pushes[0].number + 1), after);
      RunPushesStages(pushes[1..], after);
      assert st.arguments + [staged[0]] + Staged(pushes[1..], st.frames) == st.arguments + staged;
    } else {
      assert st.arguments + staged == st.arguments;
    }
  }

  /** Popping as many entries as `top` holds off `below + top` yields `top` reversed. */
  lemma PopsStagedReversed(below: seq<Argument>, top: seq<Argument>)
    ensures |PopMany(below + top, |top|)| == |top|
    ensures forall j :: 0 <= j < |top| ==> PopMany(below + top, |top|)[j] == top[|top| - 1 - j]
  {
    var s, n := below + top, |top|;
    PopManyReversesTop(s, n);
    forall j | 0 <= j < n ensures PopMany(s, n)[j] == top[n - 1 - j] {
      assert s[|s| - 1 - j] == top[n - 1 - j];
    }
  }

  /** A Call whose count equals the number of entries `top` staged above `below` pops exactly those entries. */
  lemma CallPopsTop(call: CallInstruction, st: State, below: seq<Argument>, top: seq<Argument>)
    requires WellFormed(st.frames) && |st.frames| > 0
    requires st.arguments == below + top && call.numberOfArguments == |top|
    ensures call.PopCount() == |top| <= |st.arguments|
    ensures var t := call.Step(st);
            && t.next == Ok(call.Jump())
            && t.after.arguments == below
            && t.after.frames == st.frames + [call.CalleeFrame(st)]
            && t.after.callStack == st.callStack + [Call(call.number, call.callee, PopMany(st.arguments, |top|), call.left)]
    ensures |PopMany(st.arguments, |top|)| == |top|
    ensures forall j :: 0 <= j < |top| ==> PopMany(st.arguments, |top|)[j] == top[|top| - 1 - j]
  {
    var s, n := st.arguments, |top|;
    assert s[..|s| - n] == below;
    PopsStagedReversed(below, top);
  }

  /**
   * The callee frame of such a Call binds exactly the names in `top`, each to the
   * value of its earliest (deepest) entry.
   */
  lemma CallBindsTop(call: CallInstruction, st: State, below: seq<Argument>, top: seq<Argument>)
    requires |st.frames| > 0
    requires st.arguments == below + top && call.numberOfArguments == |top|
    ensures call.PopCount() <= |st.arguments|
    ensures forall p :: p in call.CalleeFrame(st).vars <==> exists j :: 0 <= j < |top| && top[j].id == p
    ensures forall j :: 0 <= j < |top| && (forall i :: 0 <= i < j ==> top[i].id != top[j].id) ==>
              top[j].id in call.CalleeFrame(st).vars && call.CalleeFrame(st).vars[top[j].id] == top[j].value
  {
    var s, base, n := st.arguments, |below|, |top|;
    var callee := call.CalleeFrame(st);
    forall p ensures p in callee.vars <==> exists j :: 0 <= j < n && top[j].id == p {
      call.CalleeFrameKeys(st, p);
      if exists j :: 0 <= j < n && top[j].id == p {
        var j :| 0 <= j < n && top[j].id == p;
        assert s[base + j] == top[j];
      }
      if p in callee.vars {
        var q :| |s| - n <= q < |s| && s[q].id == p;
        assert top[q - base] == s[q];
      }
    }
    forall j | 0 <= j < n && (forall i :: 0 <= i < j ==> top[i].id != top[j].id)
      ensures top[j].id in callee.vars && callee.vars[top[j].id] == top[j].value
    {
      assert s[base + j] == top[j];
      forall q | |s| - n <= q < base + j ensures s[q].id != s[base + j].id {
        assert s[q] == top[q - base];
      }
      call.CalleeFrameValue(st, base + j);
    }
  }

  /** The state after the pushes, when every operand evaluates: the staged pairs sit on top of the old argument stack. */
  function AfterPushes(pushes: seq<PushParameterInstruction>, st: State): (mid: State)
    requires WellFormed(st.frames) && |st.frames| > 0 && AllEvaluate(pushes, st.frames)
    ensures RunPushes(pushes, st) == Ok(mid)
    ensures mid.frames == st.frames && mid.callStack == st.callStack
  {
    RunPushesStages(pushes, st);
    st.(arguments := st.arguments + Staged(pushes, st.frames))
  }

  /**
   * N pushes followed by `Call f, N`: the argument stack is back to what it was
   * before the pushes, one frame and one call record are pushed, and the record
   * lists the staged pairs in pop order (last pushed first).
   */
  lemma PushesThenCall(pushes: seq<PushParameterInstruction>, call: CallInstruction, st: State)
    requires WellFormed(st.frames) && |st.frames| > 0 && AllEvaluate(pushes, st.frames)
    requires call.numberOfArguments == |pushes|
    ensures var t := call.Step(AfterPushes(pushes, st));
            && t.next == Ok(call.Jump())
            && t.after.arguments == st.arguments
            && |t.after.frames| == |st.frames| + 1 && t.after.frames[..|st.frames|] == st.frames
            && |t.after.callStack| == |st.callStack| + 1 && t.after.callStack[..|st.callStack|] == st.callStack
    ensures var record := call.Step(AfterPushes(pushes, st)).after.callStack[|st.callStack|];
            && record.number == call.number && record.callee == call.callee && record.left == call.left
            && |record.arguments| == |pushes|
            && forall j :: 0 <= j < |pushes| ==> record.arguments[j] == Staged(pushes, st.frames)[|pushes| - 1 - j]
  {
    var mid := AfterPushes(pushes, st);
    CallPopsTop(call, mid, st.arguments, Staged(pushes, st.frames));
  }

  /**
   * After the pushes, the Call's frame is numbered one past the call, hangs off the
   * caller's frame and binds exactly the pushed parameter names.
   */
  lemma PushesThenCallKeys(pushes: seq<PushParameterInstruction>, call: CallInstruction, st: State)
    requires WellFormed(st.frames) && |st.frames| > 0 && AllEvaluate(pushes, st.frames)
    requires call.numberOfArguments == |pushes|
    ensures |st.arguments| + |pushes| >= call.PopCount()
    ensures var callee := call.CalleeFrame(AfterPushes(pushes, st));
            && callee.number == call.number + 1 && callee.parent == Some(|st.frames| - 1)
            && (forall p :: p in callee.vars <==> exists j :: 0 <= j < |pushes| && pushes[j].parameter == p)
  {
    var staged := Staged(pushes, st.frames);
    var mid := AfterPushes(pushes, st);
    var callee := call.CalleeFrame(mid);
    StagedNames(pushes, st.frames);
    CallBindsTop(call, mid, st.arguments, staged);
    forall p ensures p in callee.vars <==> exists j :: 0 <= j < |pushes| && pushes[j].parameter == p {
      if exists j :: 0 <= j < |pushes| && pushes[j].parameter == p {
        var j :| 0 <= j < |pushes| && pushes[j].parameter == p;
        assert staged[j].id == p;
      }
    }
  }

  /** After the pushes, each parameter name is bound to the value its earliest push staged. */
  lemma PushesThenCallValues(pushes: seq<PushParameterInstruction>, call: CallInstruction, st: State)
    requires WellFormed(st.frames) && |st.frames| > 0 && AllEvaluate(pushes, st.frames)
    requires call.numberOfArguments == |pushes|
    ensures |st.arguments| + |pushes| >= call.PopCount()
    ensures var callee := call.CalleeFrame(AfterPushes(pushes, st));
            forall j :: 0 <= j < |pushes| && (forall i :: 0 <= i < j ==> pushes[i].parameter != pushes[j].parameter) ==>
              pushes[j].parameter in callee.vars && callee.vars[pushes[j].parameter] == Staged(pushes, st.frames)[j].value
  {
    var staged := Staged(pushes, st.frames);
    var mid := AfterPushes(pushes, st);
    StagedNames(pushes, st.frames);
    CallBindsTop(call, mid, st.arguments, staged);
  }

  /** Solver hint: the staged names are the parameter names, position by position. */
  lemma StagedNames(pushes: seq<PushParameterInstruction>, frames: seq<Frame>)
    requires WellFormed(frames) && |frames| > 0 && AllEvaluate(pushes, frames)
    ensures |Staged(pushes, frames)| == |pushes|
    ensures forall j :: 0 <= j < |pushes| ==> Staged(pushes, frames)[j].id == pushes[j].parameter
  {
  }

  /** Solver hint: distinct parameter names give distinct staged names. */
  lemma StagedDistinct(pushes: seq<PushParameterInstruction>, frames: seq<Frame>)
    requires WellFormed(frames) && |frames| > 0 && AllEvaluate(pushes, frames)
    requires forall i, j :: 0 <= i < j < |pushes| ==> pushes[i].parameter != pushes[j].parameter
    ensures DistinctIds(Staged(pushes, frames))
  {
    StagedNames(pushes, frames);
  }

  /** Solver hint: reversing a list keeps its names distinct. */
  lemma ReversedDistinct(xs: seq<Argument>, ys: seq<Argument>)
    requires |ys| == |xs| && forall j :: 0 <= j < |xs| ==> ys[j] == xs[|xs| - 1 - j]
    requires DistinctIds(xs)
    ensures DistinctIds(ys)
  {
    forall i, j | 0 <= i < j < |ys| ensures ys[i].id != ys[j].id {
      assert ys[i] == xs[|xs| - 1 - i] && ys[j] == xs[|xs| - 1 - j];
    }
  }

  /** With pairwise distinct parameter names, the callee frame holds exactly N bindings. */
  lemma DistinctPushesBindExactlyN(pushes: seq<PushParameterInstruction>, call: CallInstruction, st: State)
    requires WellFormed(st.frames) && |st.frames| > 0 && AllEvaluate(pushes, st.frames)
    requires call.numberOfArguments == |pushes|
    requires forall i, j :: 0 <= i < j < |pushes| ==> pushes[i].parameter != pushes[j].parameter
    ensures |st.arguments| + |pushes| >= call.PopCount()
    ensures |call.CalleeFrame(AfterPushes(pushes, st)).vars| == |pushes|
  {
    var staged := Staged(pushes, st.frames);
    var mid := AfterPushes(pushes, st);
    PopsStagedReversed(st.arguments, staged);
    var popped := PopMany(mid.arguments, |pushes|);
    assert call.CalleeFrame(mid) == Bind(Frame(call.number + 1, Some(|st.frames| - 1), map[]), popped);
    StagedDistinct(pushes, st.frames);
    ReversedDistinct(staged, popped);
    BindAddsOnePerArgument(Frame(call.number + 1, Some(|st.frames| - 1), map[]), popped);
  }

  /** `PushParameter n = 5; r = Call f, 1` with f entered at 5, from a machine holding only its root frame. */
  lemma SingleArgumentCall()
    ensures var root := State([Frame(0, None, map[])], [], []);
            var push := PushParameterInstruction(0, "n", Constant(Object(5), "5"));
            var call := CallInstruction(FunctionInfo("f", 5), 1, 1, Some("r"));
            var t := call.Step(push.Step(root).after);
            && push.Step(root).next == Ok(1)
            && t.next == Ok(5)
            && t.after.arguments == []
            && |t.after.frames| == 2 && |t.after.callStack| == 1
            && t.after.frames[1].vars == map["n" := Object(5)]
            && t.after.callStack[0] == Call(1, FunctionInfo("f", 5), [Argument("n", Object(5))], Some("r"))
  {
    var root := State([Frame(0, None, map[])], [], []);
    var push := PushParameterInstruction(0, "n", Constant(Object(5), "5"));
    var call := CallInstruction(FunctionInfo("f", 5), 1, 1, Some("r"));
    var a := Argument("n", Object(5));
    assert push.Step(root) == Transition(Ok(1), State(root.frames, [a], []));
    var mid := State(root.frames, [a], []);
    assert [a][..0] == [];
    assert PopMany(mid.arguments, 1) == [a];
    var callee := Frame(2, Some(0), map[]);
    assert call.PopCount() == 1;
    assert Bind(callee, []) == callee;
    assert Bind(callee, [a]) == callee.Set("n", Object(5));
    assert call.CalleeFrame(mid) == Bind(callee, [a]);
    var t := call.Step(mid);
    assert t.next == Ok(5);
    assert t.after.arguments == [];
    assert t.after.frames == root.frames + [callee.Set("n", Object(5))];
    assert t.after.callStack == [Call(1, FunctionInfo("f", 5), [a], Some("r"))];
  }

  /** `PushParameter a = 1; PushParameter b = 2; Call g, 2`: both names bound, nothing left staged. */
  lemma TwoArgumentCall()
    ensures var root := State([Frame(0, None, map[])], [], []);
            var pushA := PushParameterInstruction(0, "a", Constant(Object(1), "1"));
            var pushB := PushParameterInstruction(1, "b", Constant(Object(2), "2"));
            var call := CallInstruction(FunctionInfo("g", 7), 2, 2, None);
            var t := call.Step(pushB.Step(pushA.Step(root).after).after);
            && t.next == Ok(7)
            && t.after.arguments == []
            && t.after.frames[1].vars == map["a" := Object(1), "b" := Object(2)]
            && t.after.callStack[0].left == None
  {
    var root := State([Frame(0, None, map[])], [], []);
    var pushA := PushParameterInstruction(0, "a", Constant(Object(1), "1"));
    var pushB := PushParameterInstruction(1, "b", Constant(Object(2), "2"));
    var call := CallInstruction(FunctionInfo("g", 7), 2, 2, None);
    var mid := pushB.Step(pushA.Step(root).after).after;
    var staged := [Argument("a", Object(1)), Argument("b", Object(2))];
    assert mid.arguments == staged;
    PopManyReversesTop(staged, 2);
    var popped := PopMany(staged, 2);
    assert popped == [staged[1], staged[0]];
    var start := Frame(3, Some(0), map[]);
    assert popped[..1] == [staged[1]];
    assert Bind(start, popped[..1]) == start.Set("b", Object(2));
    assert call.CalleeFrame(mid) == start.Set("b", Object(2)).Set("a", Object(1));
  }
}
