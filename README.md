# Call protocol of the IR virtual machine

A Dafny model of how HydraScript's IR interpreter calls a user-defined function.
Two instructions share the virtual machine's state:

- `PushParameter p = v` evaluates the operand `v` in the caller's frame (the top of
  the frame stack). It pushes the pair `(p, value)` onto the VM-wide argument stack
  and falls through to the next instruction.
- `Call f, n` (or `x = Call f, n`) builds a frame numbered `Number + 1` whose parent is
  the caller's frame. It pops `n` pairs off the argument stack and binds each one
  into that frame through the frame's indexer. It pushes a call record
  `(Number, f, popped pairs, x)` and then the new frame. It returns `f`'s entry
  location, the same target `Jump()` reports.

Layout:

- `runtime.dfy` (`Runtime`) holds the data: values, frames, function descriptors,
  call records, faults and the `VirtualMachine` class. The class has three
  `seq`-backed stacks (`Frames`, `Arguments`, `CallStack`), and the top of each is
  its last element.
  - A frame's parent is the position of the enclosing frame in the frame stack.
    `WellFormed` says every parent lies below its child, so `Lookup` (the scope
    chain) always terminates.
  - An operand (`IValue`) is a constant or a variable read through that chain.
- `call_instruction.dfy` (`CallInstructions`) and `push_parameter_instruction.dfy`
  (`PushParameterInstructions`) hold one datatype per instruction:
  - `Step` is the specification: a pure function from the stacks before to the next
    program counter (or fault) and the stacks after.
  - `Execute` mutates a `VirtualMachine` and is proved equal to `Step`. Call's
    `Execute` keeps the source's argument loop, with its invariants.
  - `ToStringRepresentation` is the debug text. A parser for that text is proved to
    read it back.
- `protocol.dfy` (`Protocol`) chains the two: N pushes, then `Call f, N`.
- `text.dfy` renders integers in decimal and splits lines into words.
- `wrappers.dfy` defines `Option` and `Result`.

Faults are values, not exceptions:
- A `Peek` or `Pop` on an empty stack gives `EmptyStack(FrameStack)` or
  `EmptyStack(ArgumentStack)`.
- An operand naming an unbound variable gives `UnboundName`.
- The state after a fault is what the source leaves behind:
  - a failed `Peek` changes nothing;
  - a `Call` that runs out of arguments has already popped every remaining entry,
    so it leaves the argument stack empty and the other two stacks untouched.

## Model

| member | source | states |
|---|---|---|
| CallInstructions.CallInstruction.Jump | Interpreter.Lib/IR/Instructions/CallInstruction.cs:18 | The static target is the callee's entry location. `Step`'s `t.next.value == Jump()` makes every successful call return exactly this target |
| CallInstructions.CallInstruction.Step | Interpreter.Lib/IR/Instructions/CallInstruction.cs:20-36 | Succeeds iff the frame stack is non-empty and at least `max(n, 0)` arguments are staged. On success it returns `Jump()`, removes exactly that many arguments (the rest unchanged), and pushes one frame and one call record (older entries unchanged, so `|Frames| - |CallStack|` is preserved). The new frame is numbered one past the record's call site and its parent is the old top. An empty frame stack changes nothing; too few arguments empties the argument stack and faults |
| CallInstructions.CallInstruction.Execute | Interpreter.Lib/IR/Instructions/CallInstruction.cs:20-36 | Peek, pop loop, record push and frame push on the VM give exactly the result and new stacks `Step` describes, and the frame stack stays well formed |
| CallInstructions.PopManyReversesTop | Interpreter.Lib/IR/Instructions/CallInstruction.cs:26-28 | `n` pops yield `n` entries; the `j`-th popped is the entry `j` below the top, so the `args` list is the top `n` entries in reverse push order |
| CallInstructions.PopManyOneMore | Interpreter.Lib/IR/Instructions/CallInstruction.cs:28 | Each loop iteration appends the next entry down to `args` |
| CallInstructions.Bind | Interpreter.Lib/IR/Instructions/CallInstruction.cs:29 | Writing arguments through the indexer changes only the bindings, never the frame's number or parent |
| CallInstructions.BindKeys | Interpreter.Lib/IR/Instructions/CallInstruction.cs:26-30 | After the writes, a name is bound iff it was bound before or some argument carries it |
| CallInstructions.BindKeepsOthers | Interpreter.Lib/IR/Instructions/CallInstruction.cs:26-30 | A name that no argument carries keeps the value it had before the writes |
| CallInstructions.BindLastWriteWins | Interpreter.Lib/IR/Instructions/CallInstruction.cs:26-30 | A name holds the value of the last argument written with that name |
| CallInstructions.BindAddsOnePerArgument | Interpreter.Lib/IR/Instructions/CallInstruction.cs:26-30 | Writing arguments with distinct, fresh names adds exactly one binding per argument |
| CallInstructions.CallInstruction.CalleeFrameKeys | Interpreter.Lib/IR/Instructions/CallInstruction.cs:22-31 | A name is bound in the callee frame iff one of the top `n` staged entries carries it |
| CallInstructions.CallInstruction.CalleeFrameValue | Interpreter.Lib/IR/Instructions/CallInstruction.cs:22-31 | A name is bound to the value of its deepest (earliest pushed) entry among the top `n`, because the loop writes in pop order |
| CallInstructions.CallInstruction.CalleeSeesCallerScope | Interpreter.Lib/IR/Instructions/CallInstruction.cs:22 | In the new frame, a bound argument shadows the caller; any other name resolves exactly as it did in the caller's frame, through the parent link |
| CallInstructions.CallInstruction.ToStringRepresentation | Interpreter.Lib/IR/Instructions/CallInstruction.cs:38-40 | `Call f, n`, or `x = Call f, n` when `Left` is set. `CallInstructions.RenderingParsesBack` proves the text reads back to target, callee and count |
| CallInstructions.PlainLineParsesBack | Interpreter.Lib/IR/Instructions/CallInstruction.cs:39 | `Call f, n` reads back as no target, callee `f`, count `n` |
| CallInstructions.TargetLineWords | Interpreter.Lib/IR/Instructions/CallInstruction.cs:40 | The words of `x = Call f, n` are `x`, `=`, `Call`, `f,` and `n` when none of them holds a space |
| CallInstructions.TargetLineParsesBack | Interpreter.Lib/IR/Instructions/CallInstruction.cs:40 | `x = Call f, n` reads back as target `x`, callee `f`, count `n` |
| CallInstructions.RenderingParsesBack | Interpreter.Lib/IR/Instructions/CallInstruction.cs:38-40 | The rendering chosen by whether `Left` is present parses back to the instruction's target, callee and argument count |
| PushParameterInstructions.PushParameterInstruction.Step | Interpreter.Lib/IR/Instructions/PushParameterInstruction.cs:20-24 | Frames and call stack are unchanged in every case. It succeeds iff there is a top frame and the operand evaluates in it. On success it returns `Number + 1` and the argument stack grows by exactly one: the new top is `(parameter, value in the top frame)` and the entries below are unchanged. On a fault nothing changes |
| PushParameterInstructions.PushParameterInstruction.Execute | Interpreter.Lib/IR/Instructions/PushParameterInstruction.cs:20-24 | The peek, evaluation and push on the VM give exactly the result and new stacks `Step` describes |
| PushParameterInstructions.PushParameterInstruction.ToStringRepresentation | Interpreter.Lib/IR/Instructions/PushParameterInstruction.cs:26 | `PushParameter p = v`. `PushParameterInstructions.RenderingParsesBack` proves the text reads back to the parameter name and the operand's full text |
| PushParameterInstructions.PushParameterWords | Interpreter.Lib/IR/Instructions/PushParameterInstruction.cs:26 | The words of `PushParameter p = v` are the keyword, `p`, `=`, then the operand's words |
| PushParameterInstructions.LineParsesBack | Interpreter.Lib/IR/Instructions/PushParameterInstruction.cs:26 | Any line `PushParameter p = v` with a space-free `p` reads back as `p` and the whole text `v` |
| PushParameterInstructions.RenderingParsesBack | Interpreter.Lib/IR/Instructions/PushParameterInstruction.cs:26 | `PushParameter p = v` parses back to the parameter name and the operand's full text |
| Protocol.RunPushes | Interpreter.Lib/IR/Instructions/PushParameterInstruction.cs:22 | A run of pushes that succeeds leaves frames and call stack unchanged and only appends to the argument stack, one entry per push |
| Protocol.RunPushesStages | Interpreter.Lib/IR/Instructions/PushParameterInstruction.cs:22 | When every operand evaluates, the pushes append exactly the staged `(name, value)` pairs, in program order |
| Protocol.AfterPushes | Interpreter.Lib/IR/Instructions/PushParameterInstruction.cs:22 | The state after the pushes is what running them yields, with frames and call stack untouched |
| Protocol.CallPopsTop | Interpreter.Lib/IR/Instructions/CallInstruction.cs:24-35 | A `Call` whose count equals the number of entries staged on top pops exactly those. The argument stack returns to what lay below them and the record lists them reversed |
| Protocol.CallBindsTop | Interpreter.Lib/IR/Instructions/CallInstruction.cs:22-31 | Such a call's frame binds exactly the staged names, each to its earliest staged value |
| Protocol.PushesThenCall | Interpreter.Lib/IR/Instructions/CallInstruction.cs:24-35 | N pushes then `Call f, N` jump to `f`'s entry and leave the argument stack exactly as before the pushes. One frame and one record are added. The record holds the call site, callee, target and the pushed pairs last-first |
| Protocol.PushesThenCallKeys | Interpreter.Lib/IR/Instructions/CallInstruction.cs:22-31 | After N pushes and the call, the new frame is numbered `Number + 1` with the caller as parent. It binds exactly the pushed names |
| Protocol.PushesThenCallValues | Interpreter.Lib/IR/Instructions/CallInstruction.cs:22-31 | After N pushes and the call, each pushed name is bound to the value of its earliest push |
| Protocol.DistinctPushesBindExactlyN | Interpreter.Lib/IR/Instructions/CallInstruction.cs:26-30 | With distinct parameter names the new frame holds exactly N bindings |
| Protocol.SingleArgumentCall | Interpreter.Lib/IR/Instructions/CallInstruction.cs:20-36 | `PushParameter n = 5; r = Call f, 1` with `f` at 5 returns 5 and binds `{n: 5}`. It records `Left = r`, grows both stacks by one and leaves nothing staged |
| Protocol.TwoArgumentCall | Interpreter.Lib/IR/Instructions/CallInstruction.cs:20-36 | Pushing `a = 1`, `b = 2` then `Call g, 2` binds both names and leaves nothing staged |
| Text.ParseIntToString | Interpreter.Lib/IR/Instructions/CallInstruction.cs:39 | The decimal rendering of the argument count parses back to the same integer, negative counts included |

## Left out

- The VM's fetch-execute loop, the `Return` instruction, the rest of the instruction set and the `ThreeAddressCodeInstruction` base are not part of this model. Only the `Left` target is kept from the base.
- The `Frame` class is not part of this model. Its indexer is modelled as a map update where the last write wins. Its lookup is reconstructed as a walk along parent links (`Runtime.Lookup`).
- Frames are values held in the frame stack, and the parent reference is the index of the enclosing frame in that stack. Object identity and aliasing of frames are therefore not modelled. Because frames are pushed and popped in LIFO order, the index names the same frame the reference would.
- Concrete `IValue` classes are not part of this model. An operand is a `Constant` carrying its source text or a `Variable` read through the scope chain, and renders as that text or name.
- `FunctionInfo.ToString` is not part of this model. A function is assumed to render as its identifier.
- Runtime values are opaque. There are no numeric, string or floating-point semantics.
- Exceptions are modelled as `Fault` values. Exception types and messages are not modelled.
- CallInstructions.CallInstruction.Step: `Number + 1` is unbounded here. The C# `int` would wrap at 2^31 - 1, which an instruction index never reaches.
- PushParameterInstructions.PushParameterInstruction.Step: `Number + 1` is unbounded here, for the same reason.
- CallInstructions.RenderingParsesBack: proved only for callee and target names without spaces, as identifiers are. Other names may render ambiguously.
- PushParameterInstructions.RenderingParsesBack: proved only for parameter names without spaces, for the same reason.
- The machine is assumed to start as the `VirtualMachine` constructor builds it: one root frame with no parent and no call record, and empty argument and call stacks. How the real VM is set up is not part of this model.
- The lexer's pattern generator test and `IgnorableType` are outside the call protocol and are not modelled.

Properties of the code worth knowing, each proved in the model:
- A new frame's parent is whatever frame is on top at the call site (`CallInstruction.cs:22`). Name lookup therefore follows the call chain, not lexical nesting (`CalleeSeesCallerScope`).
- `Call` preserves `|Frames| - |CallStack|`: it pushes exactly one frame and one call record (`CallInstruction.Step`).
- A name staged twice is bound to its earliest push, because the loop writes in pop order (`CalleeFrameValue`, `PushesThenCallValues`).
