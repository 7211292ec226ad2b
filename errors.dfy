/** The errors the seccomp package reports, one constructor per error site. */
module Errors {
  import opened Wrappers

  /** An error produced inside libseccomp; its text is passed on unchanged and not modelled. */
  type LibError = string

  datatype Error =
    | NotValidOperator(symbol: string)    // config.go: unknown "SCMP_CMP_*" name
    | NotValidAction(symbol: string)      // config.go: unknown "SCMP_ACT_*" name
    | NotValidArch(symbol: string)        // config.go: unknown "SCMP_ARCH_*" name
    | NilConfig                           // InitSeccomp given a nil config
    | InvalidDefaultAction                // InitSeccomp: default action not an Action
    | CreatingFilter(cause: LibError)     // NewFilter failed
    | SettingNoNewPrivs(cause: LibError)  // SetNoNewPrivsBit failed
    | NilSyscall                          // nil entry in Syscalls
    | LoadingFilter(cause: LibError)      // Load failed
    | InvalidRuleAction                   // getAction: not an Action
    | InvalidRuleOperator                 // getOperator: not an Operator
    | NilCondition                        // getCondition given a nil arg
    | NilCall                             // matchCall given a nil call or filter
    | EmptySyscallName                    // matchCall given an empty name
    | Library(cause: LibError)            // a libseccomp error returned as it is

  /** Go's `(value, error)` pair, for the functions whose value matters even when err is set. */
  datatype Ret<T> = Ret(value: T, err: Option<Error>)
}
