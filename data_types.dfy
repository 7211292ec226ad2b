/** The policy records and the two enumerations of seccomp/seccomp/data-types.go. */
module DataTypes {
  import opened Wrappers

  /** Go's `uint64`. */
  newtype Uint64 = x: int | 0 <= x < 0x1_0000_0000_0000_0000

  /** Go's `uint`, which is 64 bits wide on the 64-bit Linux targets the package is built for. */
  type Uint = Uint64

  /** The action taken when a rule matches. It is a Go `int`, so any 64-bit integer can occur. */
  newtype Action = x: int | -0x8000_0000_0000_0000 <= x < 0x8000_0000_0000_0000

  const Kill: Action := 1
  const Errno: Action := 2
  const Trap: Action := 3
  const Allow: Action := 4
  const Trace: Action := 5

  /** The comparison applied to a syscall argument. Also a Go `int`. */
  newtype Operator = x: int | -0x8000_0000_0000_0000 <= x < 0x8000_0000_0000_0000

  const EqualTo: Operator := 1
  const NotEqualTo: Operator := 2
  const GreaterThan: Operator := 3
  const GreaterThanOrEqualTo: Operator := 4
  const LessThan: Operator := 5
  const LessThanOrEqualTo: Operator := 6
  const MaskEqualTo: Operator := 7

  /** The named actions, in declaration order. */
  const NamedActions: seq<Action> := [Kill, Errno, Trap, Allow, Trace]

  /** The named operators, in declaration order. */
  const NamedOperators: seq<Operator> :=
    [EqualTo, NotEqualTo, GreaterThan, GreaterThanOrEqualTo, LessThan, LessThanOrEqualTo, MaskEqualTo]

  /** True of the values that have a name. */
  predicate IsAction(a: Action) { a in NamedActions }

  predicate IsOperator(op: Operator) { op in NamedOperators }

  /** A condition on one syscall argument. */
  datatype Arg = Arg(index: Uint, value: Uint64, valueTwo: Uint64, op: Operator)

  /** A rule for one syscall; `args` holds nullable pointers, in order. */
  datatype Syscall = Syscall(name: string, action: Action, args: seq<Option<Arg>>)

  /**
   * A whole policy. An empty `architectures` means the native architecture only;
   * `syscalls` holds nullable pointers and its order is kept.
   */
  datatype Seccomp = Seccomp(defaultAction: Action, architectures: seq<string>, syscalls: seq<Option<Syscall>>)

  /** `iota + 1` numbering: the actions are the distinct consecutive values 1..5, and the
      zero value an unset field holds is none of them. */
  lemma ActionNumbering()
    ensures |NamedActions| == 5
    ensures forall i :: 0 <= i < |NamedActions| ==> NamedActions[i] as int == i + 1
    ensures forall a :: IsAction(a) <==> 1 <= a <= 5
    ensures !IsAction(0)
  {
  }

  /** The operators are the distinct consecutive values 1..7; zero is none of them. */
  lemma OperatorNumbering()
    ensures |NamedOperators| == 7
    ensures forall i :: 0 <= i < |NamedOperators| ==> NamedOperators[i] as int == i + 1
    ensures forall op :: IsOperator(op) <==> 1 <= op <= 7
    ensures !IsOperator(0)
  {
  }
}
