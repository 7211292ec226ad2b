/**
 * The part of libseccomp-golang the package calls, kept abstract. Lookups and
 * failures are decided by the fields of a `Lib` value, which callers pass in:
 * whatever the real library and kernel would answer. The filter under
 * construction is the class `ScmpFilter`, whose methods change its fields only
 * when the library reports success.
 */
module Libseccomp {
  import opened Wrappers
  import opened Errors
  import opened DataTypes

  /** The errno value attached to the Errno and Trace actions. */
  const EPERM: int := 1

  /** The library's action type; Errno and Trace carry a return code. */
  datatype ScmpAction =
    | ActInvalid
    | ActKill
    | ActTrap
    | ActErrno(returnCode: int)
    | ActTrace(returnCode: int)
    | ActAllow

  /** The library's comparison operators. */
  datatype ScmpCompareOp =
    | CompareInvalid
    | CompareNotEqual
    | CompareLess
    | CompareLessOrEqual
    | CompareEqual
    | CompareGreaterEqual
    | CompareGreater
    | CompareMaskedEqual

  /** A comparison on one syscall argument, as the library stores it. */
  datatype ScmpCondition = ScmpCondition(argument: Uint, op: ScmpCompareOp, operand1: Uint64, operand2: Uint64)

  /** A syscall number and an architecture token; their encodings are the library's business. */
  type ScmpSyscall = int
  type ScmpArch = nat

  /** One rule added to a filter: with no conditions, or with all of them ANDed together. */
  datatype Rule =
    | Unconditional(call: ScmpSyscall, action: ScmpAction)
    | Conditional(call: ScmpSyscall, action: ScmpAction, conditions: seq<ScmpCondition>)

  /**
   * What can be observed of a filter: its default action, the architectures added
   * besides the native one, the no-new-privileges attribute, the rules in the order
   * they were added, how often Load was called and whether a Load succeeded.
   */
  datatype FilterState = FilterState(
    defaultAction: ScmpAction,
    arches: set<ScmpArch>,
    noNewPrivs: bool,
    rules: seq<Rule>,
    loadCalls: nat,
    loaded: bool)

  /** A new filter: native architecture only, no-new-privileges on (libseccomp's default), no rules. */
  function FreshState(act: ScmpAction): FilterState
  {
    FilterState(act, {}, true, [], 0, false)
  }

  /**
   * The library's answers. A `None` from `syscallFromName` is a name the running
   * kernel does not know; the other `Option<LibError>` fields say whether a call on
   * a filter in the given state fails.
   */
  datatype Lib = Lib(
    syscallFromName: string -> Option<ScmpSyscall>,
    archFromString: string -> Result<ScmpArch, LibError>,
    makeCondition: (Uint, ScmpCompareOp, Uint64, Uint64) -> Result<ScmpCondition, LibError>,
    newFilter: ScmpAction -> Option<LibError>,
    addArch: (FilterState, ScmpArch) -> Option<LibError>,
    setNoNewPrivs: (FilterState, bool) -> Option<LibError>,
    addRule: (FilterState, ScmpSyscall, ScmpAction) -> Option<LibError>,
    addRuleConditional: (FilterState, ScmpSyscall, ScmpAction, seq<ScmpCondition>) -> Option<LibError>,
    load: FilterState -> Option<LibError>)

  /** The filter after one library call, and the call's error. */
  datatype LibStep = LibStep(state: FilterState, err: Option<LibError>)

  function AddArchStep(lib: Lib, s: FilterState, arch: ScmpArch): LibStep
  {
    match lib.addArch(s, arch)
    case Some(e) => LibStep(s, Some(e))
    case None => LibStep(s.(arches := s.arches + {arch}), None)
  }

  function SetNoNewPrivsStep(lib: Lib, s: FilterState, state: bool): LibStep
  {
    match lib.setNoNewPrivs(s, state)
    case Some(e) => LibStep(s, Some(e))
    case None => LibStep(s.(noNewPrivs := state), None)
  }

  function AddRuleStep(lib: Lib, s: FilterState, call: ScmpSyscall, action: ScmpAction): LibStep
  {
    match lib.addRule(s, call, action)
    case Some(e) => LibStep(s, Some(e))
    case None => LibStep(s.(rules := s.rules + [Unconditional(call, action)]), None)
  }

  function AddRuleConditionalStep(lib: Lib, s: FilterState, call: ScmpSyscall, action: ScmpAction,
                                  conditions: seq<ScmpCondition>): LibStep
  {
    match lib.addRuleConditional(s, call, action, conditions)
    case Some(e) => LibStep(s, Some(e))
    case None => LibStep(s.(rules := s.rules + [Conditional(call, action, conditions)]), None)
  }

  /** Every call of Load is counted, whether or not the kernel accepts the filter. */
  function LoadStep(lib: Lib, s: FilterState): LibStep
  {
    var attempted := s.(loadCalls := s.loadCalls + 1);
    match lib.load(s)
    case Some(e) => LibStep(attempted, Some(e))
    case None => LibStep(attempted.(loaded := true), None)
  }

  /** A filter under construction (libseccomp's ScmpFilter). */
  class ScmpFilter {
    var defaultAction: ScmpAction
    var arches: set<ScmpArch>
    var noNewPrivs: bool
    var rules: seq<Rule>
    var loadCalls: nat
    var loaded: bool

    function State(): FilterState
      reads this
    {
      FilterState(defaultAction, arches, noNewPrivs, rules, loadCalls, loaded)
    }

    constructor (act: ScmpAction)
      ensures State() == FreshState(act)
    {
      defaultAction, arches, noNewPrivs := act, {}, true;
      rules, loadCalls, loaded := [], 0, false;
    }

    method AddArch(lib: Lib, arch: ScmpArch) returns (err: Option<LibError>)
      modifies this
      ensures LibStep(State(), err) == AddArchStep(lib, old(State()), arch)
    {
      err := lib.addArch(State(), arch);
      if err.None? {
        arches := arches + {arch};
      }
    }

    method SetNoNewPrivsBit(lib: Lib, state: bool) returns (err: Option<LibError>)
      modifies this
      ensures LibStep(State(), err) == SetNoNewPrivsStep(lib, old(State()), state)
    {
      err := lib.setNoNewPrivs(State(), state);
      if err.None? {
        noNewPrivs := state;
      }
    }

    method AddRule(lib: Lib, call: ScmpSyscall, action: ScmpAction) returns (err: Option<LibError>)
      modifies this
      ensures LibStep(State(), err) == AddRuleStep(lib, old(State()), call, action)
    {
      err := lib.addRule(State(), call, action);
      if err.None? {
        rules := rules + [Unconditional(call, action)];
      }
    }

    method AddRuleConditional(lib: Lib, call: ScmpSyscall, action: ScmpAction, conditions: seq<ScmpCondition>)
      returns (err: Option<LibError>)
      modifies this
      ensures LibStep(State(), err) == AddRuleConditionalStep(lib, old(State()), call, action, conditions)
    {
      err := lib.addRuleConditional(State(), call, action, conditions);
      if err.None? {
        rules := rules + [Conditional(call, action, conditions)];
      }
    }

    method Load(lib: Lib) returns (err: Option<LibError>)
      modifies this
      ensures LibStep(State(), err) == LoadStep(lib, old(State()))
    {
      err := lib.load(State());
      loadCalls := loadCalls + 1;
      if err.None? {
        loaded := true;
      }
    }
  }

  /** Creates a filter with the given default action, unless the library refuses. */
  method NewFilter(lib: Lib, act: ScmpAction) returns (filter: ScmpFilter?, err: Option<LibError>)
    ensures err == lib.newFilter(act)
    ensures filter == null <==> err.Some?
    ensures filter != null ==> fresh(filter) && filter.State() == FreshState(act)
  {
    err := lib.newFilter(act);
    if err.Some? {
      return null, err;
    }
    filter := new ScmpFilter(act);
  }
}
