/** Optional values and the exceptions the rebuild script raises, as a
    failure-compatible Result so that `:-` propagates them like Python does. */
module Outcomes {

  /** Python's `None` or a present value. */
  datatype Option<+T> = None | Some(value: T)

  /** The exception classes that reach a handler in the script.  Each one is
      caught per package (during enumeration) or per repository (during the
      update loop) and never stops the other packages from being processed. */
  datatype Error =
    | KeyError        // an environment variable the shell did not print, or a required one left empty
    | NonLiveEbuild   // the package pins a commit or revision: silently skipped
    | AssertionError  // a mercurial repository URI without a usable base name
    | TypeError       // `str()` of the package list, or an svn revision that is None
    | ValueError      // a package of one VCS appended to a checkout owned by another
    | UpdateFailed    // the update command exited with a non-zero status
    | OSError         // a failure of the operating system (chdir, spawning, reading a file)
    | AttributeError  // aborting a task whose start was interrupted before its subprocess was recorded

  datatype Result<+T> = Ok(value: T) | Err(error: Error) {

    predicate IsFailure() {
      Err?
    }

    function PropagateFailure<U>(): Result<U>
      requires Err?
    {
      Err(error)
    }

    function Extract(): T
      requires Ok?
    {
      value
    }
  }

  /** Python truthiness of an optional string: present and non-empty. */
  predicate Truthy(s: Option<string>) {
    s.Some? && s.value != ""
  }
}
