/** The compiled switch: compare, jump into a table of branches by adding to the program counter. */
module JitSwitch {
  import opened Words

  datatype Instr =
    | LoadOperand
    | CmpImm(n: Word)
    | AddPcIfLowerOrSame
    | Branch(dest: int)

  /** Program counter, r0, and the carry and zero flags. */
  datatype State = State(pc: int, r0: Word, carry: bool, zero: bool)

  /** In ARM state the program counter reads as the address of the instruction plus 8. */
  function Exec(i: Instr, operand: Word, s: State): (s': State)
  {
    match i
    case LoadOperand => s.(pc := s.pc + 4, r0 := operand)
    case CmpImm(n) => s.(pc := s.pc + 4, carry := CarryOut(s.r0, NotWord(n), true), zero := s.r0 == n)
    case AddPcIfLowerOrSame => if !s.carry || s.zero then s.(pc := s.pc + 8 + 4 * s.r0) else s.(pc := s.pc + 4)
    case Branch(dest) => s.(pc := dest)
  }

  /** The instruction at an address of code that starts at `base`. */
  predicate Inside(code: seq<Instr>, base: int, pc: int)
  {
    base <= pc < base + 4 * |code| && (pc - base) % 4 == 0
  }

  /** The given number of instructions, or fewer if control leaves the code. */
  function Run(code: seq<Instr>, base: int, operand: Word, s: State, steps: nat): (s': State)
    decreases steps
  {
    if steps > 0 && Inside(code, base, s.pc)
      then Run(code, base, operand, Exec(code[(s.pc - base) / 4], operand, s), steps - 1)
    else s
  }

  const TIME_QUANTUM_CODE := 16

  /** Arm_BranchForwardOrBackward: a forward branch skips the time-quantum check of its target. */
  function Destination(pos: nat, target: nat, index: seq<int>, backward: seq<bool>): (dest: int)
    requires target < |index| == |backward|
  {
    index[target] + if pos < target && backward[target] then TIME_QUANTUM_CODE else 0
  }

  function Table(pos: nat, targets: seq<nat>, index: seq<int>, backward: seq<bool>): (code: seq<Instr>)
    requires |index| == |backward| && forall i :: 0 <= i < |targets| ==> targets[i] < |index|
    ensures |code| == |targets|
    ensures forall i :: 0 <= i < |targets| ==> code[i] == Branch(Destination(pos, targets[i], index, backward))
  {
    seq(|targets|, i requires 0 <= i < |targets| => Branch(Destination(pos, targets[i], index, backward)))
  }

  /** What is emitted for the switch at opcode position pos. */
  function Compile(pos: nat, targets: seq<nat>, index: seq<int>, backward: seq<bool>): (code: seq<Instr>)
    requires |index| == |backward| && pos + 1 < |index| && |targets| < 256
    requires forall i :: 0 <= i < |targets| ==> targets[i] < |index|
  {
    [LoadOperand, CmpImm(|targets|), AddPcIfLowerOrSame, Branch(index[pos + 1])] + Table(pos, targets, index, backward)
  }

  /** Lower or same, after the comparison, means just that. */
  lemma LowerOrSame(v: Word, n: Word)
    ensures !CarryOut(v, NotWord(n), true) || v == n <==> v <= n
  {
  }

  /** A value below n takes control to the code of its target, behind the time-quantum check if the jump is
      forward and the target has one; any other value to the next opcode.  The code that follows starts
      where the table ends; so the value n, which falls one entry past the table, lands on the next opcode
      like every larger value. */
  lemma SwitchReaches(pos: nat, targets: seq<nat>, index: seq<int>, backward: seq<bool>, base: int, v: Word, s: State)
    requires |index| == |backward| && pos + 1 < |index| && |targets| < 256
    requires forall i :: 0 <= i < |targets| ==> targets[i] < |index|
    requires s.pc == base && index[pos + 1] == base + 4 * |Compile(pos, targets, index, backward)|
    ensures Run(Compile(pos, targets, index, backward), base, v, s, if v == |targets| then 3 else 4).pc
      == if v >= |targets| then index[pos + 1]
         else if pos < targets[v] && backward[targets[v]] then index[targets[v]] + 16
         else index[targets[v]]
  {
    var code, n := Compile(pos, targets, index, backward), |targets|;
    var s1 := Exec(code[0], v, s);
    var s2 := Exec(code[1], v, s1);
    var s3 := Exec(code[2], v, s2);
    LowerOrSame(v, n);
    assert s3.pc == if v <= n then base + 16 + 4 * v else base + 12;
    var k := if v == n then 0 else 1;
    After(code, base, v, s, k + 3);
    After(code, base, v, s1, k + 2);
    After(code, base, v, s2, k + 1);
    if v < n {
      assert code[4 + v] == Branch(Destination(pos, targets[v], index, backward));
      QuarterOf(4 + v);
      assert Inside(code, base, s3.pc) && (s3.pc - base) / 4 == 4 + v;
      After(code, base, v, s3, k);
    } else if v > n {
      After(code, base, v, s3, k);
    }
  }

  lemma After(code: seq<Instr>, base: int, v: Word, s: State, steps: nat)
    requires steps > 0
    ensures Inside(code, base, s.pc) ==>
      Run(code, base, v, s, steps) == Run(code, base, v, Exec(code[(s.pc - base) / 4], v, s), steps - 1)
    ensures !Inside(code, base, s.pc) ==> Run(code, base, v, s, steps) == s
  {
  }
}
