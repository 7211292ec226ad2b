/**
 * Symbol translation (seccomp/seccomp/config.go): three read-only tables from
 * libseccomp's header names to the package's values, and the lookups over them.
 * Being functions, the lookups are deterministic: the same symbol always gives
 * the same answer.
 */
module Config {
  import opened Wrappers
  import opened Errors
  import opened DataTypes

  const Operators: map<string, Operator> := map[
    "SCMP_CMP_NE" := NotEqualTo,
    "SCMP_CMP_LT" := LessThan,
    "SCMP_CMP_LE" := LessThanOrEqualTo,
    "SCMP_CMP_EQ" := EqualTo,
    "SCMP_CMP_GE" := GreaterThanOrEqualTo,
    "SCMP_CMP_GT" := GreaterThan,
    "SCMP_CMP_MASKED_EQ" := MaskEqualTo
  ]

  const Actions: map<string, Action> := map[
    "SCMP_ACT_KILL" := Kill,
    "SCMP_ACT_ERRNO" := Errno,
    "SCMP_ACT_TRAP" := Trap,
    "SCMP_ACT_ALLOW" := Allow,
    "SCMP_ACT_TRACE" := Trace
  ]

  const Archs: map<string, string> := map[
    "SCMP_ARCH_X86" := "x86",
    "SCMP_ARCH_X86_64" := "amd64",
    "SCMP_ARCH_X32" := "x32",
    "SCMP_ARCH_ARM" := "arm",
    "SCMP_ARCH_AARCH64" := "arm64",
    "SCMP_ARCH_MIPS" := "mips",
    "SCMP_ARCH_MIPS64" := "mips64",
    "SCMP_ARCH_MIPS64N32" := "mips64n32",
    "SCMP_ARCH_MIPSEL" := "mipsel",
    "SCMP_ARCH_MIPSEL64" := "mipsel64",
    "SCMP_ARCH_MIPSEL64N32" := "mipsel64n32"
  ]

  /** The header name of each named operator: the inverse of the table, written per value. */
  function OperatorSymbol(op: Operator): string
    requires IsOperator(op)
  {
    if op == EqualTo then "SCMP_CMP_EQ"
    else if op == NotEqualTo then "SCMP_CMP_NE"
    else if op == GreaterThan then "SCMP_CMP_GT"
    else if op == GreaterThanOrEqualTo then "SCMP_CMP_GE"
    else if op == LessThan then "SCMP_CMP_LT"
    else if op == LessThanOrEqualTo then "SCMP_CMP_LE"
    else "SCMP_CMP_MASKED_EQ"
  }

  /** The header name of each named action. */
  function ActionSymbol(act: Action): string
    requires IsAction(act)
  {
    if act == Kill then "SCMP_ACT_KILL"
    else if act == Errno then "SCMP_ACT_ERRNO"
    else if act == Trap then "SCMP_ACT_TRAP"
    else if act == Allow then "SCMP_ACT_ALLOW"
    else "SCMP_ACT_TRACE"
  }

  /** The libseccomp architecture names, and the header name of each. */
  const ArchNames: seq<string> :=
    ["x86", "amd64", "x32", "arm", "arm64", "mips", "mips64", "mips64n32", "mipsel", "mipsel64", "mipsel64n32"]

  function ArchSymbol(arch: string): string
    requires arch in ArchNames
  {
    if arch == "x86" then "SCMP_ARCH_X86"
    else if arch == "amd64" then "SCMP_ARCH_X86_64"
    else if arch == "x32" then "SCMP_ARCH_X32"
    else if arch == "arm" then "SCMP_ARCH_ARM"
    else if arch == "arm64" then "SCMP_ARCH_AARCH64"
    else if arch == "mips" then "SCMP_ARCH_MIPS"
    else if arch == "mips64" then "SCMP_ARCH_MIPS64"
    else if arch == "mips64n32" then "SCMP_ARCH_MIPS64N32"
    else if arch == "mipsel" then "SCMP_ARCH_MIPSEL"
    else if arch == "mipsel64" then "SCMP_ARCH_MIPSEL64"
    else "SCMP_ARCH_MIPSEL64N32"
  }

  /** Looks up a comparison operator by its libseccomp header name. */
  function ConvertStringToOperator(symbol: string): (r: Ret<Operator>)
    ensures r.err.None? <==> symbol in Operators
    ensures r.err.None? ==> IsOperator(r.value) && OperatorSymbol(r.value) == symbol
    ensures r.err.Some? ==> r.value == 0 && !IsOperator(r.value) && r.err == Some(NotValidOperator(symbol))
  {
    if symbol in Operators then Ret(Operators[symbol], None)
    else Ret(0, Some(NotValidOperator(symbol)))
  }

  /** Looks up a rule action by its libseccomp header name. */
  function ConvertStringToAction(symbol: string): (r: Ret<Action>)
    ensures r.err.None? <==> symbol in Actions
    ensures r.err.None? ==> IsAction(r.value) && ActionSymbol(r.value) == symbol
    ensures r.err.Some? ==> r.value == 0 && !IsAction(r.value) && r.err == Some(NotValidAction(symbol))
  {
    if symbol in Actions then Ret(Actions[symbol], None)
    else Ret(0, Some(NotValidAction(symbol)))
  }

  /** Looks up an architecture by its libseccomp header name. */
  function ConvertStringToArch(symbol: string): (r: Ret<string>)
    ensures r.err.None? <==> symbol in Archs
    ensures r.err.None? ==> r.value in ArchNames && ArchSymbol(r.value) == symbol
    ensures r.err.Some? ==> r.value == "" && r.err == Some(NotValidArch(symbol))
  {
    if symbol in Archs then Ret(Archs[symbol], None)
    else Ret("", Some(NotValidArch(symbol)))
  }

  /** Every named operator is reached from exactly its own header name. */
  lemma OperatorRoundTrip(op: Operator)
    requires IsOperator(op)
    ensures ConvertStringToOperator(OperatorSymbol(op)) == Ret(op, None)
  {
  }

  lemma ActionRoundTrip(act: Action)
    requires IsAction(act)
    ensures ConvertStringToAction(ActionSymbol(act)) == Ret(act, None)
  {
  }

  lemma ArchRoundTrip(arch: string)
    requires arch in ArchNames
    ensures ConvertStringToArch(ArchSymbol(arch)) == Ret(arch, None)
  {
  }

  /** The tables are injective: two names that convert to the same value are the same name. */
  lemma TablesInjective(a: string, b: string)
    ensures (ConvertStringToOperator(a).err.None? && ConvertStringToOperator(b).err.None? &&
             ConvertStringToOperator(a).value == ConvertStringToOperator(b).value) ==> a == b
    ensures (ConvertStringToAction(a).err.None? && ConvertStringToAction(b).err.None? &&
             ConvertStringToAction(a).value == ConvertStringToAction(b).value) ==> a == b
    ensures (ConvertStringToArch(a).err.None? && ConvertStringToArch(b).err.None? &&
             ConvertStringToArch(a).value == ConvertStringToArch(b).value) ==> a == b
  {
  }

  /** Sample entries of the operator and action tables. */
  lemma TableSamples()
    ensures ConvertStringToOperator("SCMP_CMP_MASKED_EQ") == Ret(MaskEqualTo, None)
    ensures ConvertStringToOperator("SCMP_CMP_NE") == Ret(NotEqualTo, None)
    ensures ConvertStringToAction("SCMP_ACT_TRACE") == Ret(Trace, None)
  {
  }

  /** A sample entry of the architecture table, and the rejection of a name outside it. */
  lemma ArchSamples()
    ensures ConvertStringToArch("SCMP_ARCH_X86_64") == Ret("amd64", None)
    ensures ConvertStringToArch("SCMP_ARCH_BOGUS") == Ret("", Some(NotValidArch("SCMP_ARCH_BOGUS")))
  {
    assert "SCMP_ARCH_BOGUS" !in Archs by {
      assert forall k :: k in Archs ==> |k| != |"SCMP_ARCH_BOGUS"| || k[10] != 'B';
    }
  }
}
