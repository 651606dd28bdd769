// Timeout resolution (`getDefaultTimeout` and `timeout || getDefaultTimeout()`).
module TimeoutResolution {
  import opened Wrappers
  import opened JsValues

  /** The timeout used when the host framework offers no default, in milliseconds. */
  const FallbackTimeout := 5000

  /**
   * The host default: the framework's configured default interval when the
   * framework is present (taken as it is, whatever its value), else 5000.
   */
  function GetDefaultTimeout(hostDefault: Option<int>): (t: int)
    ensures hostDefault.Some? ==> t == hostDefault.value
    ensures hostDefault.None? ==> t == FallbackTimeout
  {
    match hostDefault
    case Some(d) => d
    case None => FallbackTimeout
  }

  /** A timeout argument is truthy when it was given and is not 0. */
  predicate TruthyTimeout(timeout: Option<int>) {
    timeout.Some? && Truthy(Num(timeout.value))
  }

  /**
   * The timeout every registration of one call receives: a truthy explicit
   * timeout wins, then the host default, then 5000.
   */
  function EffectiveTimeout(timeout: Option<int>, hostDefault: Option<int>): (t: int)
    ensures TruthyTimeout(timeout) ==> t == timeout.value
    ensures !TruthyTimeout(timeout) ==> t == GetDefaultTimeout(hostDefault)
    ensures t == 0 ==> !TruthyTimeout(timeout) && hostDefault == Some(0)
  {
    if TruthyTimeout(timeout) then timeout.value else GetDefaultTimeout(hostDefault)
  }
}
