/**
 * Properties of the filter builder: all-or-nothing rule insertion, silent
 * skipping of syscalls the kernel does not know, fail-fast ordering, and that
 * the filter is loaded once, only after every earlier step succeeded, holding
 * exactly the rules an independent reading of the policy predicts.
 */
module SeccompProperties {
  import opened Wrappers
  import opened Errors
  import opened DataTypes
  import opened Libseccomp
  import opened SeccompLinux

  /** Distinct actions become distinct library actions. */
  lemma GetActionInjective(a: Action, b: Action)
    requires IsAction(a) && IsAction(b)
    ensures GetAction(a).value == GetAction(b).value ==> a == b
  {
  }

  /** Distinct operators become distinct library comparisons. */
  lemma GetOperatorInjective(a: Operator, b: Operator)
    requires IsOperator(a) && IsOperator(b)
    ensures GetOperator(a).value == GetOperator(b).value ==> a == b
  {
  }

  /**
   * The conditions succeed exactly when every argument converts; then they are
   * the converted arguments, same length, same order. On failure the error is
   * that of the first argument that does not convert.
   */
  lemma {:induction false} ConditionsPointwise(lib: Lib, args: seq<Option<Arg>>)
    ensures Conditions(lib, args).Success? <==>
            forall i :: 0 <= i < |args| ==> GetCondition(lib, args[i]).Success?
    ensures Conditions(lib, args).Success? ==>
            |Conditions(lib, args).value| == |args| &&
            forall i :: 0 <= i < |args| ==> GetCondition(lib, args[i]) == Success(Conditions(lib, args).value[i])
    ensures Conditions(lib, args).Failure? ==>
            exists k :: 0 <= k < |args| && GetCondition(lib, args[k]) == Failure(Conditions(lib, args).error) &&
                        forall j :: 0 <= j < k ==> GetCondition(lib, args[j]).Success?
    decreases |args|
  {
    if |args| > 0 {
      var init := args[..|args| - 1];
      ConditionsPointwise(lib, init);
      assert forall i :: 0 <= i < |init| ==> init[i] == args[i];
      if Conditions(lib, init).Failure? {
        var k :| 0 <= k < |init| && GetCondition(lib, init[k]) == Failure(Conditions(lib, init).error) &&
                 forall j :: 0 <= j < k ==> GetCondition(lib, init[j]).Success?;
        assert GetCondition(lib, args[k]) == Failure(Conditions(lib, args).error);
      } else if GetCondition(lib, args[|args| - 1]).Failure? {
        assert GetCondition(lib, args[|args| - 1]) == Failure(Conditions(lib, args).error);
      }
    }
  }

  /** A failed matchCall leaves the filter as it was: no rule is ever partly added. */
  lemma MatchCallAllOrNothing(lib: Lib, s: FilterState, call: Option<Syscall>)
    ensures MatchCallOutcome(lib, s, call).err.Some? ==> MatchCallOutcome(lib, s, call).state == s
    ensures MatchCallOutcome(lib, s, call).err.None? ==>
            var rules := MatchCallOutcome(lib, s, call).state.rules;
            MatchCallOutcome(lib, s, call).state == s.(rules := rules) &&
            (rules == s.rules || (|rules| == |s.rules| + 1 && rules[..|s.rules|] == s.rules))
  {
  }

  /** The empty name is refused before the kernel is asked, whatever the kernel would answer. */
  lemma EmptyNameNeverSkipped(lib: Lib, s: FilterState, c: Syscall)
    requires |c.name| == 0
    ensures MatchCallOutcome(lib, s, Some(c)) == Outcome(s, Some(EmptySyscallName))
  {
  }

  /** A non-empty name the kernel does not know is skipped: success, filter unchanged. */
  lemma UnknownSyscallSkipped(lib: Lib, s: FilterState, c: Syscall)
    requires |c.name| > 0 && lib.syscallFromName(c.name).None?
    ensures MatchCallOutcome(lib, s, Some(c)) == Outcome(s, None)
  {
  }

  /** An invalid action or any one argument that does not convert fails the call and adds no rule. */
  lemma InvalidRuleAddsNothing(lib: Lib, s: FilterState, c: Syscall, k: nat)
    requires |c.name| > 0 && lib.syscallFromName(c.name).Some?
    requires !IsAction(c.action) || (k < |c.args| && GetCondition(lib, c.args[k]).Failure?)
    ensures MatchCallOutcome(lib, s, Some(c)).err.Some?
    ensures MatchCallOutcome(lib, s, Some(c)).state == s
  {
    ConditionsPointwise(lib, c.args);
  }

  /** The rule a policy entry contributes to a successful build, read off the entry alone. */
  function RulesOf(lib: Lib, call: Option<Syscall>): seq<Rule>
  {
    match call
    case None => []
    case Some(c) =>
      match lib.syscallFromName(c.name)
      case None => []
      case Some(num) =>
        if |c.args| == 0 then [Unconditional(num, GetAction(c.action).value)]
        else
          match Conditions(lib, c.args)
          case Failure(_) => []
          case Success(conds) => [Conditional(num, GetAction(c.action).value, conds)]
  }

  /** The rules a successful build of `calls` holds, entry by entry from the front. */
  function ExpectedRules(lib: Lib, calls: seq<Option<Syscall>>): seq<Rule>
    decreases |calls|
  {
    if |calls| == 0 then [] else RulesOf(lib, calls[0]) + ExpectedRules(lib, calls[1..])
  }

  lemma {:induction false} ExpectedRulesAppend(lib: Lib, a: seq<Option<Syscall>>, b: seq<Option<Syscall>>)
    ensures ExpectedRules(lib, a + b) == ExpectedRules(lib, a) + ExpectedRules(lib, b)
    decreases |a|
  {
    if |a| == 0 {
      assert a + b == b;
    } else {
      assert (a + b)[1..] == a[1..] + b;
      ExpectedRulesAppend(lib, a[1..], b);
    }
  }

  /**
   * What the syscall loop demands of an entry before it asks the library to add
   * a rule: not nil, a non-empty name and, when the name resolves, a valid
   * action and arguments that all convert.
   */
  predicate EntryAccepted(lib: Lib, call: Option<Syscall>)
  {
    call.Some? && |call.value.name| > 0 &&
    (lib.syscallFromName(call.value.name).Some? ==>
       IsAction(call.value.action) &&
       forall j :: 0 <= j < |call.value.args| ==> GetCondition(lib, call.value.args[j]).Success?)
  }

  /** An entry the loop does not accept fails, and leaves the filter as it was. */
  lemma RejectedEntryFails(lib: Lib, s: FilterState, call: Option<Syscall>)
    requires !EntryAccepted(lib, call)
    ensures SyscallOutcome(lib, s, call).err.Some?
    ensures SyscallOutcome(lib, s, call).state == s
  {
    if call.Some? {
      ConditionsPointwise(lib, call.value.args);
    }
  }

  /**
   * A successful entry of the syscall loop was accepted, and appends the rules
   * the entry contributes, and nothing else.
   */
  lemma SyscallEntryAppends(lib: Lib, s: FilterState, call: Option<Syscall>)
    requires SyscallOutcome(lib, s, call).err.None?
    ensures EntryAccepted(lib, call)
    ensures SyscallOutcome(lib, s, call).state == s.(rules := s.rules + RulesOf(lib, call))
  {
    if call.Some? {
      ConditionsPointwise(lib, call.value.args);
    }
  }

  /**
   * A successful matchCall for a known name adds exactly one rule: unconditional
   * when there are no args, otherwise one conditional rule whose conditions are
   * the converted args in order.
   */
  lemma MatchCallAddsItsRule(lib: Lib, s: FilterState, c: Syscall)
    requires MatchCallOutcome(lib, s, Some(c)).err.None?
    requires lib.syscallFromName(c.name).Some?
    ensures MatchCallOutcome(lib, s, Some(c)).state == s.(rules := s.rules + RulesOf(lib, Some(c)))
    ensures |RulesOf(lib, Some(c))| == 1
    ensures var r := RulesOf(lib, Some(c))[0];
            r.call == lib.syscallFromName(c.name).value && r.action == GetAction(c.action).value &&
            IsAction(c.action) &&
            (r.Unconditional? <==> |c.args| == 0) &&
            (r.Conditional? ==>
               |r.conditions| == |c.args| &&
               forall i :: 0 <= i < |c.args| ==> GetCondition(lib, c.args[i]) == Success(r.conditions[i]))
  {
    ConditionsPointwise(lib, c.args);
  }

  /**
   * The syscall loop, when it succeeds, met no nil entry and appended exactly
   * the expected rules, changing nothing else.
   */
  lemma {:induction false} SyscallsSuccess(lib: Lib, s: FilterState, calls: seq<Option<Syscall>>)
    requires SyscallsOutcome(lib, s, calls).err.None?
    ensures SyscallsOutcome(lib, s, calls).state == s.(rules := s.rules + ExpectedRules(lib, calls))
    decreases |calls|
  {
    if |calls| == 0 {
      assert s.(rules := s.rules + []) == s;
    } else {
      var init := calls[..|calls| - 1];
      SyscallsSuccess(lib, s, init);
      SyscallEntryAppends(lib, SyscallsOutcome(lib, s, init).state, calls[|calls| - 1]);
      ExpectedRulesSnoc(lib, calls);
    }
  }

  /** The expected rules of a list are those of all but its last entry, then the last entry's. */
  lemma ExpectedRulesSnoc(lib: Lib, calls: seq<Option<Syscall>>)
    requires |calls| > 0
    ensures ExpectedRules(lib, calls) ==
            ExpectedRules(lib, calls[..|calls| - 1]) + RulesOf(lib, calls[|calls| - 1])
  {
    var last := calls[|calls| - 1];
    assert calls == calls[..|calls| - 1] + [last];
    ExpectedRulesAppend(lib, calls[..|calls| - 1], [last]);
    assert [last][1..] == [];
  }

  /** A successful syscall loop accepted every entry: none was nil, empty-named or invalid. */
  lemma {:induction false} SyscallsAcceptEveryEntry(lib: Lib, s: FilterState, calls: seq<Option<Syscall>>)
    requires SyscallsOutcome(lib, s, calls).err.None?
    ensures forall i :: 0 <= i < |calls| ==> EntryAccepted(lib, calls[i])
    decreases |calls|
  {
    if |calls| > 0 {
      var init := calls[..|calls| - 1];
      SyscallsAcceptEveryEntry(lib, s, init);
      SyscallEntryAppends(lib, SyscallsOutcome(lib, s, init).state, calls[|calls| - 1]);
      assert forall i :: 0 <= i < |init| ==> init[i] == calls[i];
    }
  }

  /** Every step of the syscall loop touches the rules only. */
  lemma {:induction false} SyscallsTouchRulesOnly(lib: Lib, s: FilterState, calls: seq<Option<Syscall>>)
    ensures SyscallsOutcome(lib, s, calls).state == s.(rules := SyscallsOutcome(lib, s, calls).state.rules)
    decreases |calls|
  {
    if |calls| > 0 {
      SyscallsTouchRulesOnly(lib, s, calls[..|calls| - 1]);
      MatchCallAllOrNothing(lib, SyscallsOutcome(lib, s, calls[..|calls| - 1]).state, calls[|calls| - 1]);
    }
  }

  /**
   * Skipping is truly silent: a policy with an entry whose name the kernel
   * does not know builds exactly as the same policy without it.
   */
  lemma {:induction false} UnknownSyscallIsInvisible(lib: Lib, s: FilterState, before: seq<Option<Syscall>>,
                                                     c: Syscall, after: seq<Option<Syscall>>)
    requires |c.name| > 0 && lib.syscallFromName(c.name).None?
    ensures SyscallsOutcome(lib, s, before + [Some(c)] + after) == SyscallsOutcome(lib, s, before + after)
    decreases |after|
  {
    var all := before + [Some(c)] + after;
    var without := before + after;
    if |after| == 0 {
      assert all[..|all| - 1] == before;
      assert without == before;
    } else {
      assert all[..|all| - 1] == before + [Some(c)] + after[..|after| - 1];
      assert without[..|without| - 1] == before + after[..|after| - 1];
      UnknownSyscallIsInvisible(lib, s, before, c, after[..|after| - 1]);
    }
  }

  /**
   * The same at the level of the whole build: a policy with an entry whose
   * name the kernel does not know builds and loads exactly as the same policy
   * without it.
   */
  lemma UnknownSyscallIsInvisibleInBuild(lib: Lib, c: Seccomp, before: seq<Option<Syscall>>,
                                         e: Syscall, after: seq<Option<Syscall>>)
    requires |e.name| > 0 && lib.syscallFromName(e.name).None?
    ensures InitOutcome(lib, Some(c.(syscalls := before + [Some(e)] + after))) ==
            InitOutcome(lib, Some(c.(syscalls := before + after)))
  {
    var act := GetAction(c.defaultAction);
    if act.err.None? && lib.newFilter(act.value).None? {
      var arches := ArchesOutcome(lib, FreshState(act.value), c.architectures);
      if arches.err.None? {
        var nnp := SetNoNewPrivsStep(lib, arches.state, false);
        UnknownSyscallIsInvisible(lib, nnp.state, before, e, after);
      }
    }
  }

  /** A nil entry anywhere in the syscall list makes the loop fail. */
  lemma NilEntryFails(lib: Lib, s: FilterState, calls: seq<Option<Syscall>>, k: nat)
    requires k < |calls| && calls[k].None?
    ensures SyscallsOutcome(lib, s, calls).err.Some?
  {
    var upto := calls[..k + 1];
    assert upto[..k] == calls[..k];
    SyscallsAbort(lib, s, upto, calls[k + 1..]);
    assert upto + calls[k + 1..] == calls;
  }

  /** The architectures the library resolves `names` to. */
  function RegisteredArches(lib: Lib, names: seq<string>): set<ScmpArch>
  {
    set name | name in names && lib.archFromString(name).Success? :: lib.archFromString(name).value
  }

  /** The architecture loop, when it succeeds, resolved every name and added all of them, and nothing else. */
  lemma {:induction false} ArchesSuccess(lib: Lib, s: FilterState, names: seq<string>)
    requires ArchesOutcome(lib, s, names).err.None?
    ensures ArchesOutcome(lib, s, names).state == s.(arches := s.arches + RegisteredArches(lib, names))
    ensures forall i :: 0 <= i < |names| ==> lib.archFromString(names[i]).Success?
    decreases |names|
  {
    if |names| == 0 {
      assert RegisteredArches(lib, names) == {};
      assert s.(arches := s.arches + {}) == s;
    } else {
      var init := names[..|names| - 1];
      var last := names[|names| - 1];
      ArchesSuccess(lib, s, init);
      assert names == init + [last];
      assert forall i :: 0 <= i < |init| ==> init[i] == names[i];
      assert RegisteredArches(lib, names) == RegisteredArches(lib, init) + {lib.archFromString(last).value};
    }
  }

  /** Every step of the architecture loop touches the architectures only. */
  lemma {:induction false} ArchesTouchArchesOnly(lib: Lib, s: FilterState, names: seq<string>)
    ensures ArchesOutcome(lib, s, names).state == s.(arches := ArchesOutcome(lib, s, names).state.arches)
    decreases |names|
  {
    if |names| > 0 {
      ArchesTouchArchesOnly(lib, s, names[..|names| - 1]);
    }
  }

  /** An architecture name the library cannot resolve makes the loop fail. */
  lemma ArchFailureFails(lib: Lib, s: FilterState, names: seq<string>, k: nat)
    requires k < |names| && lib.archFromString(names[k]).Failure?
    ensures ArchesOutcome(lib, s, names).err.Some?
  {
    var upto := names[..k + 1];
    assert upto[..k] == names[..k];
    ArchesAbort(lib, s, upto, names[k + 1..]);
    assert upto + names[k + 1..] == names;
  }

  /** A nil config or an invalid default action is refused before any filter is created. */
  lemma InitRefusesBeforeCreating(lib: Lib, config: Option<Seccomp>)
    requires config.None? || !IsAction(config.value.defaultAction)
    ensures InitOutcome(lib, config).filter.None?
    ensures InitOutcome(lib, config).err ==
            if config.None? then Some(NilConfig) else Some(InvalidDefaultAction)
  {
  }

  /**
   * Load is called at most once, and only after every earlier step succeeded:
   * then the filter holds the default action, the registered architectures,
   * no-new-privileges cleared and exactly the expected rules. The build
   * succeeds exactly when that Load succeeds.
   */
  lemma LoadOnlyAfterEveryStep(lib: Lib, config: Option<Seccomp>)
    ensures InitOutcome(lib, config).filter.Some? ==> InitOutcome(lib, config).filter.value.loadCalls <= 1
    ensures InitOutcome(lib, config).filter.Some? && InitOutcome(lib, config).filter.value.loadCalls == 1 ==>
            config.Some? && IsAction(config.value.defaultAction) &&
            (forall i :: 0 <= i < |config.value.architectures| ==>
               lib.archFromString(config.value.architectures[i]).Success?) &&
            (forall i :: 0 <= i < |config.value.syscalls| ==> EntryAccepted(lib, config.value.syscalls[i])) &&
            var act := GetAction(config.value.defaultAction).value;
            var arches := ArchesOutcome(lib, FreshState(act), config.value.architectures);
            lib.newFilter(act).None? &&
            arches.err.None? &&
            SyscallsOutcome(lib, arches.state.(noNewPrivs := false), config.value.syscalls).err.None? &&
            var f := InitOutcome(lib, config).filter.value;
            f.defaultAction == GetAction(config.value.defaultAction).value &&
            f.arches == RegisteredArches(lib, config.value.architectures) &&
            !f.noNewPrivs &&
            f.rules == ExpectedRules(lib, config.value.syscalls)
    ensures InitOutcome(lib, config).err.None? <==>
            InitOutcome(lib, config).filter.Some? && InitOutcome(lib, config).filter.value.loaded
    ensures InitOutcome(lib, config).err.None? ==> InitOutcome(lib, config).filter.value.loadCalls == 1
  {
    if config.Some? && IsAction(config.value.defaultAction) {
      var c := config.value;
      var act := GetAction(c.defaultAction).value;
      if lib.newFilter(act).None? {
        var fresh0 := FreshState(act);
        var arches := ArchesOutcome(lib, fresh0, c.architectures);
        ArchesTouchArchesOnly(lib, fresh0, c.architectures);
        if arches.err.None? {
          ArchesSuccess(lib, fresh0, c.architectures);
          var nnp := SetNoNewPrivsStep(lib, arches.state, false);
          if nnp.err.None? {
            SyscallsTouchRulesOnly(lib, nnp.state, c.syscalls);
            if SyscallsOutcome(lib, nnp.state, c.syscalls).err.None? {
              SyscallsSuccess(lib, nnp.state, c.syscalls);
              SyscallsAcceptEveryEntry(lib, nnp.state, c.syscalls);
            }
          }
        }
      }
    }
  }

  /**
   * The whole effect of a successful build: a filter with the converted default
   * action, every listed architecture, no-new-privileges cleared, the expected
   * rules, loaded once. With no architectures only the native one is there; with
   * no syscalls the filter holds no rules and only the default action applies.
   */
  lemma InitSuccess(lib: Lib, c: Seccomp)
    requires InitOutcome(lib, Some(c)).err.None?
    ensures InitOutcome(lib, Some(c)).filter ==
            Some(FilterState(GetAction(c.defaultAction).value, RegisteredArches(lib, c.architectures), false,
                             ExpectedRules(lib, c.syscalls), 1, true))
    ensures |c.architectures| == 0 ==> InitOutcome(lib, Some(c)).filter.value.arches == {}
    ensures |c.syscalls| == 0 ==> InitOutcome(lib, Some(c)).filter.value.rules == []
  {
    LoadOnlyAfterEveryStep(lib, Some(c));
  }

  /** An architecture the library cannot resolve aborts the build before Load. */
  lemma BadArchNeverLoads(lib: Lib, c: Seccomp, k: nat)
    requires k < |c.architectures| && lib.archFromString(c.architectures[k]).Failure?
    ensures InitOutcome(lib, Some(c)).err.Some?
    ensures InitOutcome(lib, Some(c)).filter.Some? ==> InitOutcome(lib, Some(c)).filter.value.loadCalls == 0
  {
    LoadOnlyAfterEveryStep(lib, Some(c));
  }

  /**
   * An entry with an empty name, or with a resolvable name and an invalid
   * action or an argument that does not convert, aborts the build before Load.
   */
  lemma InvalidEntryNeverLoads(lib: Lib, c: Seccomp, k: nat)
    requires k < |c.syscalls| && !EntryAccepted(lib, c.syscalls[k])
    ensures InitOutcome(lib, Some(c)).err.Some?
    ensures InitOutcome(lib, Some(c)).filter.Some? ==> InitOutcome(lib, Some(c)).filter.value.loadCalls == 0
  {
    LoadOnlyAfterEveryStep(lib, Some(c));
  }

  /** A nil syscall entry aborts the build before Load. */
  lemma NilSyscallNeverLoads(lib: Lib, c: Seccomp, k: nat)
    requires k < |c.syscalls| && c.syscalls[k].None?
    ensures InitOutcome(lib, Some(c)).err.Some?
    ensures InitOutcome(lib, Some(c)).filter.Some? ==> InitOutcome(lib, Some(c)).filter.value.loadCalls == 0
  {
    LoadOnlyAfterEveryStep(lib, Some(c));
  }
}
