/**
 * The filter builder of seccomp/seccomp/seccomp_linux.go: translation of the
 * package's actions, operators and argument conditions into libseccomp's, the
 * per-syscall rule insertion (matchCall) and the whole build-and-load sequence
 * (InitSeccomp).
 *
 * Each loop of the source has a specification function that folds over a
 * prefix of its input; the methods keep "fold of the part already processed ==
 * current state" as their loop invariant, so what the methods do is what the
 * functions say, and the lemmas in module SeccompProperties are about the
 * functions.
 */
module SeccompLinux {
  import opened Wrappers
  import opened Errors
  import opened DataTypes
  import opened Libseccomp

  /** Converts a package action to the library's; Errno and Trace return EPERM. */
  function GetAction(act: Action): (r: Ret<ScmpAction>)
    ensures r.err.None? <==> IsAction(act)
    ensures r.err.Some? ==> r == Ret(ActInvalid, Some(InvalidRuleAction))
    ensures r.err.None? ==> r.value != ActInvalid
    ensures r.value == ActKill <==> act == Kill
    ensures r.value == ActErrno(EPERM) <==> act == Errno
    ensures r.value == ActTrap <==> act == Trap
    ensures r.value == ActAllow <==> act == Allow
    ensures r.value == ActTrace(EPERM) <==> act == Trace
  {
    if act == Kill then Ret(ActKill, None)
    else if act == Errno then Ret(ActErrno(EPERM), None)
    else if act == Trap then Ret(ActTrap, None)
    else if act == Allow then Ret(ActAllow, None)
    else if act == Trace then Ret(ActTrace(EPERM), None)
    else Ret(ActInvalid, Some(InvalidRuleAction))
  }

  /** Converts a package operator to the library's comparison. */
  function GetOperator(op: Operator): (r: Ret<ScmpCompareOp>)
    ensures r.err.None? <==> IsOperator(op)
    ensures r.err.Some? ==> r == Ret(CompareInvalid, Some(InvalidRuleOperator))
    ensures r.err.None? ==> r.value != CompareInvalid
    ensures r.value == CompareEqual <==> op == EqualTo
    ensures r.value == CompareNotEqual <==> op == NotEqualTo
    ensures r.value == CompareGreater <==> op == GreaterThan
    ensures r.value == CompareGreaterEqual <==> op == GreaterThanOrEqualTo
    ensures r.value == CompareLess <==> op == LessThan
    ensures r.value == CompareLessOrEqual <==> op == LessThanOrEqualTo
    ensures r.value == CompareMaskedEqual <==> op == MaskEqualTo
  {
    if op == EqualTo then Ret(CompareEqual, None)
    else if op == NotEqualTo then Ret(CompareNotEqual, None)
    else if op == GreaterThan then Ret(CompareGreater, None)
    else if op == GreaterThanOrEqualTo then Ret(CompareGreaterEqual, None)
    else if op == LessThan then Ret(CompareLess, None)
    else if op == LessThanOrEqualTo then Ret(CompareLessOrEqual, None)
    else if op == MaskEqualTo then Ret(CompareMaskedEqual, None)
    else Ret(CompareInvalid, Some(InvalidRuleOperator))
  }

  /** A library result with its error passed on as it is. */
  function FromLib<T>(r: Result<T, LibError>): Result<T, Error>
  {
    match r
    case Success(v) => Success(v)
    case Failure(e) => Failure(Library(e))
  }

  /** Converts one argument condition: nil and a bad operator are refused before the library is asked. */
  function GetCondition(lib: Lib, arg: Option<Arg>): (r: Result<ScmpCondition, Error>)
    ensures arg.None? ==> r == Failure(NilCondition)
    ensures arg.Some? && !IsOperator(arg.value.op) ==> r == Failure(InvalidRuleOperator)
    ensures r.Success? ==>
      arg.Some? && IsOperator(arg.value.op) &&
      lib.makeCondition(arg.value.index, GetOperator(arg.value.op).value, arg.value.value, arg.value.valueTwo)
        == Success(r.value)
    ensures arg.Some? && IsOperator(arg.value.op) ==>
      r == FromLib(lib.makeCondition(arg.value.index, GetOperator(arg.value.op).value,
                                     arg.value.value, arg.value.valueTwo))
  {
    match arg
    case None => Failure(NilCondition)
    case Some(a) =>
      var op := GetOperator(a.op);
      if op.err.Some? then Failure(op.err.value)
      else FromLib(lib.makeCondition(a.index, op.value, a.value, a.valueTwo))
  }

  /** The conditions built from `args` in order, or the first conversion error. */
  function Conditions(lib: Lib, args: seq<Option<Arg>>): Result<seq<ScmpCondition>, Error>
    decreases |args|
  {
    if |args| == 0 then Success([])
    else
      match Conditions(lib, args[..|args| - 1])
      case Failure(e) => Failure(e)
      case Success(conds) =>
        match GetCondition(lib, args[|args| - 1])
        case Failure(e) => Failure(e)
        case Success(c) => Success(conds + [c])
  }

  /** Once a prefix of the arguments fails, later arguments are never looked at. */
  lemma {:induction false} ConditionsAbort(lib: Lib, done: seq<Option<Arg>>, rest: seq<Option<Arg>>)
    requires Conditions(lib, done).Failure?
    ensures Conditions(lib, done + rest) == Conditions(lib, done)
    decreases |rest|
  {
    if |rest| == 0 {
      assert done + rest == done;
    } else {
      var all := done + rest;
      assert all[..|all| - 1] == done + rest[..|rest| - 1];
      ConditionsAbort(lib, done, rest[..|rest| - 1]);
    }
  }

  /** The filter after a step of the build, and the step's error. */
  datatype Outcome = Outcome(state: FilterState, err: Option<Error>)

  /** A library call's outcome, its error passed on as it is. */
  function Lifted(r: LibStep): Outcome
  {
    match r.err
    case None => Outcome(r.state, None)
    case Some(e) => Outcome(r.state, Some(Library(e)))
  }

  /** What matchCall does to a filter in state `s`. */
  function MatchCallOutcome(lib: Lib, s: FilterState, call: Option<Syscall>): Outcome
  {
    match call
    case None => Outcome(s, Some(NilCall))
    case Some(c) =>
      if |c.name| == 0 then Outcome(s, Some(EmptySyscallName))
      else
        match lib.syscallFromName(c.name)
        case None => Outcome(s, None)
        case Some(num) =>
          var act := GetAction(c.action);
          if act.err.Some? then Outcome(s, act.err)
          else if |c.args| == 0 then Lifted(AddRuleStep(lib, s, num, act.value))
          else
            match Conditions(lib, c.args)
            case Failure(e) => Outcome(s, Some(e))
            case Success(conds) => Lifted(AddRuleConditionalStep(lib, s, num, act.value, conds))
  }

  /** Adds a rule for one syscall to `filter`, unless the running kernel does not know its name. */
  method MatchCall(lib: Lib, filter: ScmpFilter?, call: Option<Syscall>) returns (err: Option<Error>)
    modifies filter
    ensures filter == null ==> err == Some(NilCall)
    ensures filter != null ==> Outcome(filter.State(), err) == MatchCallOutcome(lib, old(filter.State()), call)
  {
    if call.None? || filter == null {
      return Some(NilCall);
    }
    var c := call.value;
    if |c.name| == 0 {
      return Some(EmptySyscallName);
    }
    var callNum := lib.syscallFromName(c.name);
    if callNum.None? {
      return None;
    }
    var callAct := GetAction(c.action);
    if callAct.err.Some? {
      return callAct.err;
    }
    if |c.args| == 0 {
      var e := filter.AddRule(lib, callNum.value, callAct.value);
      if e.Some? {
        return Some(Library(e.value));
      }
    } else {
      var conditions: seq<ScmpCondition> := [];
      var i := 0;
      while i < |c.args|
        invariant 0 <= i <= |c.args|
        invariant filter.State() == old(filter.State())
        invariant Conditions(lib, c.args[..i]) == Success(conditions)
      {
        var newCond := GetCondition(lib, c.args[i]);
        assert c.args[..i + 1][..i] == c.args[..i];
        if newCond.Failure? {
          ConditionsAbort(lib, c.args[..i + 1], c.args[i + 1..]);
          assert c.args[..i + 1] + c.args[i + 1..] == c.args;
          return Some(newCond.error);
        }
        conditions := conditions + [newCond.value];
        i := i + 1;
      }
      assert c.args[..i] == c.args;
      var e := filter.AddRuleConditional(lib, callNum.value, callAct.value, conditions);
      if e.Some? {
        return Some(Library(e.value));
      }
    }
    return None;
  }

  /** Looks up one architecture name and adds it to the filter. */
  function ArchOutcome(lib: Lib, s: FilterState, name: string): Outcome
  {
    match lib.archFromString(name)
    case Failure(e) => Outcome(s, Some(Library(e)))
    case Success(arch) => Lifted(AddArchStep(lib, s, arch))
  }

  /** The architecture loop: every name in order, stopping at the first error. */
  function ArchesOutcome(lib: Lib, s: FilterState, names: seq<string>): Outcome
    decreases |names|
  {
    if |names| == 0 then Outcome(s, None)
    else
      var done := ArchesOutcome(lib, s, names[..|names| - 1]);
      if done.err.Some? then done
      else ArchOutcome(lib, done.state, names[|names| - 1])
  }

  lemma {:induction false} ArchesAbort(lib: Lib, s: FilterState, done: seq<string>, rest: seq<string>)
    requires ArchesOutcome(lib, s, done).err.Some?
    ensures ArchesOutcome(lib, s, done + rest) == ArchesOutcome(lib, s, done)
    decreases |rest|
  {
    if |rest| == 0 {
      assert done + rest == done;
    } else {
      var all := done + rest;
      assert all[..|all| - 1] == done + rest[..|rest| - 1];
      ArchesAbort(lib, s, done, rest[..|rest| - 1]);
    }
  }

  /** One entry of the syscall loop: a nil entry is an error of its own. */
  function SyscallOutcome(lib: Lib, s: FilterState, call: Option<Syscall>): Outcome
  {
    if call.None? then Outcome(s, Some(NilSyscall))
    else MatchCallOutcome(lib, s, call)
  }

  /** The syscall loop: every entry in order, stopping at the first error. */
  function SyscallsOutcome(lib: Lib, s: FilterState, calls: seq<Option<Syscall>>): Outcome
    decreases |calls|
  {
    if |calls| == 0 then Outcome(s, None)
    else
      var done := SyscallsOutcome(lib, s, calls[..|calls| - 1]);
      if done.err.Some? then done
      else SyscallOutcome(lib, done.state, calls[|calls| - 1])
  }

  lemma {:induction false} SyscallsAbort(lib: Lib, s: FilterState, done: seq<Option<Syscall>>,
                                         rest: seq<Option<Syscall>>)
    requires SyscallsOutcome(lib, s, done).err.Some?
    ensures SyscallsOutcome(lib, s, done + rest) == SyscallsOutcome(lib, s, done)
    decreases |rest|
  {
    if |rest| == 0 {
      assert done + rest == done;
    } else {
      var all := done + rest;
      assert all[..|all| - 1] == done + rest[..|rest| - 1];
      SyscallsAbort(lib, s, done, rest[..|rest| - 1]);
    }
  }

  /** What InitSeccomp leaves behind: the filter, if one was created, and the error. */
  datatype InitResult = InitResult(filter: Option<FilterState>, err: Option<Error>)

  /** The whole build: check, create, add architectures, clear no-new-privileges, add rules, load. */
  function InitOutcome(lib: Lib, config: Option<Seccomp>): InitResult
  {
    match config
    case None => InitResult(None, Some(NilConfig))
    case Some(c) =>
      var defaultAction := GetAction(c.defaultAction);
      if defaultAction.err.Some? then InitResult(None, Some(InvalidDefaultAction))
      else
        match lib.newFilter(defaultAction.value)
        case Some(e) => InitResult(None, Some(CreatingFilter(e)))
        case None =>
          var arches := ArchesOutcome(lib, FreshState(defaultAction.value), c.architectures);
          if arches.err.Some? then InitResult(Some(arches.state), arches.err)
          else
            var nnp := SetNoNewPrivsStep(lib, arches.state, false);
            if nnp.err.Some? then InitResult(Some(nnp.state), Some(SettingNoNewPrivs(nnp.err.value)))
            else
              var rules := SyscallsOutcome(lib, nnp.state, c.syscalls);
              if rules.err.Some? then InitResult(Some(rules.state), rules.err)
              else
                var load := LoadStep(lib, rules.state);
                match load.err
                case Some(e) => InitResult(Some(load.state), Some(LoadingFilter(e)))
                case None => InitResult(Some(load.state), None)
  }

  /**
   * Builds the filter `config` describes and loads it. The filter handle is
   * returned as well (null when none was created) so that its final state can
   * be stated.
   */
  method InitSeccomp(lib: Lib, config: Option<Seccomp>) returns (err: Option<Error>, filter: ScmpFilter?)
    ensures filter == null <==> InitOutcome(lib, config).filter.None?
    ensures filter != null ==> fresh(filter) && InitOutcome(lib, config).filter == Some(filter.State())
    ensures err == InitOutcome(lib, config).err
  {
    if config.None? {
      return Some(NilConfig), null;
    }
    var c := config.value;
    var defaultAction := GetAction(c.defaultAction);
    if defaultAction.err.Some? {
      return Some(InvalidDefaultAction), null;
    }
    var e;
    filter, e := NewFilter(lib, defaultAction.value);
    if e.Some? {
      return Some(CreatingFilter(e.value)), null;
    }
    ghost var created := filter.State();

    // Add extra architectures
    var i := 0;
    while i < |c.architectures|
      invariant 0 <= i <= |c.architectures|
      invariant fresh(filter)
      invariant ArchesOutcome(lib, created, c.architectures[..i]) == Outcome(filter.State(), None)
    {
      assert c.architectures[..i + 1][..i] == c.architectures[..i];
      var scmpArch := lib.archFromString(c.architectures[i]);
      if scmpArch.Failure? {
        ArchesAbort(lib, created, c.architectures[..i + 1], c.architectures[i + 1..]);
        assert c.architectures[..i + 1] + c.architectures[i + 1..] == c.architectures;
        return Some(Library(scmpArch.error)), filter;
      }
      var e := filter.AddArch(lib, scmpArch.value);
      if e.Some? {
        ArchesAbort(lib, created, c.architectures[..i + 1], c.architectures[i + 1..]);
        assert c.architectures[..i + 1] + c.architectures[i + 1..] == c.architectures;
        return Some(Library(e.value)), filter;
      }
      i := i + 1;
    }
    assert c.architectures[..i] == c.architectures;

    // Unset the no-new-privileges bit
    e := filter.SetNoNewPrivsBit(lib, false);
    if e.Some? {
      return Some(SettingNoNewPrivs(e.value)), filter;
    }
    ghost var cleared := filter.State();

    // Add a rule for each syscall
    var j := 0;
    while j < |c.syscalls|
      invariant 0 <= j <= |c.syscalls|
      invariant fresh(filter)
      invariant SyscallsOutcome(lib, cleared, c.syscalls[..j]) == Outcome(filter.State(), None)
    {
      assert c.syscalls[..j + 1][..j] == c.syscalls[..j];
      var call := c.syscalls[j];
      if call.None? {
        SyscallsAbort(lib, cleared, c.syscalls[..j + 1], c.syscalls[j + 1..]);
        assert c.syscalls[..j + 1] + c.syscalls[j + 1..] == c.syscalls;
        return Some(NilSyscall), filter;
      }
      err := MatchCall(lib, filter, call);
      if err.Some? {
        SyscallsAbort(lib, cleared, c.syscalls[..j + 1], c.syscalls[j + 1..]);
        assert c.syscalls[..j + 1] + c.syscalls[j + 1..] == c.syscalls;
        return err, filter;
      }
      j := j + 1;
    }
    assert c.syscalls[..j] == c.syscalls;

    e := filter.Load(lib);
    if e.Some? {
      return Some(LoadingFilter(e.value)), filter;
    }
    return None, filter;
  }
}
