/**
 * The state the call protocol works on: runtime values, frames (binding
 * environments chained to an enclosing frame), function descriptors, call records,
 * and the virtual machine with its three LIFO stacks.
 *
 * Every stack is a sequence whose LAST element is the top: a push appends, a pop
 * removes the last element, a peek reads it.
 */
module Runtime {
  import opened Wrappers

  type Name = string

  /** A runtime value. The interpreter stores `object`; the call protocol only moves values around. */
  datatype Value = Null | Object(handle: nat)

  /** One staged argument `(Id, Value)`: the name to bind in the callee and the value computed by the caller. */
  datatype Argument = Argument(id: Name, value: Value)

  /** Static descriptor of a callable: its identifier and the index of its first instruction. */
  datatype FunctionInfo = FunctionInfo(id: Name, location: int) {
    function ToString(): string {
      id
    }
  }

  /**
   * One binding environment. `number` is the instruction index recorded when the
   * frame was created; `parent` is the position, in the frame stack, of the
   * enclosing frame (None for the root frame).
   */
  datatype Frame = Frame(number: int, parent: Option<nat>, vars: map<Name, Value>) {
    /** The indexer setter `frame[id] = value`: binds `id`, overwriting any earlier binding. */
    function Set(id: Name, value: Value): Frame {
      this.(vars := vars[id := value])
    }
  }

  /** One call-stack entry: call site, callee, the arguments in the order they were bound, and the target name in the caller. */
  datatype Call = Call(number: int, callee: FunctionInfo, arguments: seq<Argument>, left: Option<Name>)

  /** The stacks that Peek and Pop can find empty. */
  datatype StackKind = FrameStack | ArgumentStack

  /** Why an instruction did not complete: a Peek or Pop on an empty stack, or a name bound nowhere on the scope chain. */
  datatype Fault = EmptyStack(stack: StackKind) | UnboundName(id: Name)

  /** Every enclosing frame lies below the frame it encloses, so scope chains end. */
  predicate WellFormed(frames: seq<Frame>) {
    forall i :: 0 <= i < |frames| && frames[i].parent.Some? ==> frames[i].parent.value < i
  }

  /** Looks `id` up in frame `k`, then along its chain of enclosing frames. */
  function Lookup(frames: seq<Frame>, k: nat, id: Name): Option<Value>
    requires WellFormed(frames) && k < |frames|
    decreases k
  {
    if id in frames[k].vars then Some(frames[k].vars[id])
    else
      match frames[k].parent
      case None => None
      case Some(p) => Lookup(frames, p, id)
  }

  /** Pushing frames above frame `k` does not change what is visible from `k`. */
  lemma {:induction false} LookupIgnoresFramesAbove(frames: seq<Frame>, above: seq<Frame>, k: nat, id: Name)
    requires WellFormed(frames) && WellFormed(frames + above) && k < |frames|
    ensures Lookup(frames + above, k, id) == Lookup(frames, k, id)
    decreases k
  {
    assert (frames + above)[k] == frames[k];
    if id !in frames[k].vars && frames[k].parent.Some? {
      LookupIgnoresFramesAbove(frames, above, frames[k].parent.value, id);
    }
  }

  /** An operand: a constant with its source text, or a variable read through the scope chain. */
  datatype IValue = Constant(value: Value, representation: string) | Variable(id: Name) {

    /** Evaluates the operand against frame `k`; an unbound variable is a fault. */
    function Get(frames: seq<Frame>, k: nat): (r: Result<Value, Fault>)
      requires WellFormed(frames) && k < |frames|
    {
      match this
      case Constant(v, _) => Ok(v)
      case Variable(id) =>
        match Lookup(frames, k, id)
        case Some(v) => Ok(v)
        case None => Err(UnboundName(id))
    }

    function ToString(): string {
      match this
      case Constant(_, text) => text
      case Variable(id) => id
    }
  }

  /** A snapshot of the three stacks. */
  datatype State = State(frames: seq<Frame>, arguments: seq<Argument>, callStack: seq<Call>)

  /** What executing one instruction yields: the next program counter or a fault, and the stacks afterwards. */
  datatype Transition = Transition(next: Result<int, Fault>, after: State)

  /** The virtual machine's mutable execution state, shared by all instructions. */
  class VirtualMachine {
    var Frames: seq<Frame>
    var Arguments: seq<Argument>
    var CallStack: seq<Call>

    ghost predicate Valid()
      reads this
    {
      WellFormed(Frames)
    }

    function Snapshot(): State
      reads this
    {
      State(Frames, Arguments, CallStack)
    }

    /** A machine holding only the root frame, with nothing staged and no call in flight. */
    constructor ()
      ensures Valid()
      ensures Frames == [Frame(0, None, map[])] && Arguments == [] && CallStack == []
    {
      Frames := [Frame(0, None, map[])];
      Arguments := [];
      CallStack := [];
    }
  }
}
