/**
 * The `PushParameter` instruction: evaluates one argument in the caller's frame and
 * stages it, with the name it will be bound to, on the argument stack.
 */
module PushParameterInstructions {
  import opened Wrappers
  import opened Runtime
  import Text

  /** `PushParameter parameter = value`; `number` is the instruction's own index. */
  datatype PushParameterInstruction = PushParameterInstruction(number: int, parameter: Name, value: IValue) {

    /**
     * One execution on the stacks `st`. The frame stack is only peeked and the call
     * stack is not touched; when the peek and the evaluation succeed, exactly one
     * entry is pushed and execution falls through to the next instruction.
     */
    function Step(st: State): (t: Transition)
      requires WellFormed(st.frames)
      ensures t.after.frames == st.frames && t.after.callStack == st.callStack
      ensures t.next.Ok? <==> |st.frames| > 0 && value.Get(st.frames, |st.frames| - 1).Ok?
      ensures t.next.Ok? ==> t.next.value == number + 1
      ensures |st.frames| == 0 ==> t == Transition(Err(EmptyStack(FrameStack)), st)
      ensures |st.frames| > 0 && value.Get(st.frames, |st.frames| - 1).Err? ==>
                t == Transition(Err(value.Get(st.frames, |st.frames| - 1).error), st)
      ensures t.next.Ok? ==>
                && |t.after.arguments| == |st.arguments| + 1
                && t.after.arguments[..|st.arguments|] == st.arguments
                && t.after.arguments[|st.arguments|] == Argument(parameter, value.Get(st.frames, |st.frames| - 1).value)
    {
      if |st.frames| == 0 then
        Transition(Err(EmptyStack(FrameStack)), st)
      else
        match value.Get(st.frames, |st.frames| - 1)
        case Err(fault) => Transition(Err(fault), st)
        case Ok(v) => Transition(Ok(number + 1), st.(arguments := st.arguments + [Argument(parameter, v)]))
    }

    method Execute(vm: VirtualMachine) returns (next: Result<int, Fault>)
      requires vm.Valid()
      modifies vm
      ensures vm.Valid()
      ensures Transition(next, vm.Snapshot()) == Step(old(vm.Snapshot()))
    {
      if |vm.Frames| == 0 {
        return Err(EmptyStack(FrameStack));
      }
      var caller := |vm.Frames| - 1;
      var evaluated := value.Get(vm.Frames, caller);
      if evaluated.Err? {
        return Err(evaluated.error);
      }
      vm.Arguments := vm.Arguments + [Argument(parameter, evaluated.value)];
      return Ok(number + 1);
    }

    /** The debug rendering `PushParameter p = v`. */
    function ToStringRepresentation(): string {
      "PushParameter " + parameter + " = " + value.ToString()
    }
  }

  /** What a rendered PushParameter line says: the parameter name and the operand's text. */
  datatype PushParameterText = PushParameterText(parameter: Name, value: string)

  /** Reads a rendered PushParameter line back; None when the text does not have its shape. */
  function ParsePushParameter(text: string): Option<PushParameterText> {
    var words := Text.Split(text);
    if |words| >= 3 && words[0] == "PushParameter" && words[2] == "=" then
      var offset := |"PushParameter "| + |words[1]| + |" = "|;
      if offset <= |text| then Some(PushParameterText(words[1], text[offset..])) else None
    else None
  }

  /** Solver hint: regroups the rendered line around its spaces. */
  lemma LineShape(p: string, v: string)
    ensures "PushParameter " + p + " = " + v == "PushParameter" + " " + (p + " " + ("=" + " " + v))
  {
  }

  lemma WordsFromKeyword(p: string, v: string)
    requires ' ' !in p
    ensures Text.Split("PushParameter" + " " + (p + " " + ("=" + " " + v))) == ["PushParameter", p, "="] + Text.Split(v)
  {
    assert ' ' !in "PushParameter" && ' ' !in "=";
    Text.SplitThreeLeadingWords("PushParameter", p, "=", v);
  }

  /** The words of `PushParameter p = v` when `p` contains no space. */
  lemma PushParameterWords(p: string, v: string)
    requires ' ' !in p
    ensures Text.Split("PushParameter " + p + " = " + v) == ["PushParameter", p, "="] + Text.Split(v)
  {
    LineShape(p, v);
    WordsFromKeyword(p, v);
  }

  /** Solver hint: the operand's text is what follows `PushParameter p = `. */
  lemma OperandTextFollows(p: string, v: string)
    ensures var text := "PushParameter " + p + " = " + v;
            |"PushParameter "| + |p| + |" = "| <= |text| && text[|"PushParameter "| + |p| + |" = "|..] == v
  {
  }

  /** A line `PushParameter p = v` reads back as `p` and `v` when `p` holds no space. */
  lemma LineParsesBack(p: string, v: string)
    requires ' ' !in p
    ensures ParsePushParameter("PushParameter " + p + " = " + v) == Some(PushParameterText(p, v))
  {
    var words := Text.Split("PushParameter " + p + " = " + v);
    PushParameterWords(p, v);
    assert words[0] == "PushParameter" && words[1] == p && words[2] == "=";
    OperandTextFollows(p, v);
  }

  /**
   * The rendering loses nothing: for a parameter name without spaces (as identifiers
   * are), parsing it back gives the name and the operand's text, whatever that text holds.
   */
  lemma RenderingParsesBack(i: PushParameterInstruction)
    requires ' ' !in i.parameter
    ensures ParsePushParameter(i.ToStringRepresentation()) == Some(PushParameterText(i.parameter, i.value.ToString()))
  {
    LineParsesBack(i.parameter, i.value.ToString());
  }
}
