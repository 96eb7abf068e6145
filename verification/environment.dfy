/**
 * The process state `set_n_cpu_devices` reads and writes: the `XLA_FLAGS` environment
 * variable, whether the CPU backend has already been created, and the value of the
 * `chex_n_cpu_devices` command-line flag.
 */
module CpuDevices {
  import opened Results
  import opened DeviceCountFlag

  /** The exceptions `set_n_cpu_devices` can raise. */
  datatype SetError =
    | UnparsableCount                                    // `int(None)` on a flag with no digits
    | BackendAlreadyInitialised(requested: int, available: nat)  // the RuntimeError

  /** The registered default of `chex_n_cpu_devices`. */
  const DefaultNCpuDevices: int := 1

  /** `n or FLAGS['chex_n_cpu_devices'].value`: a missing or zero request falls back to the flag. */
  function RequestedCount(n: Option<int>, flagValue: int): (c: int)
    ensures n.Some? && n.value != 0 ==> c == n.value
    ensures n.None? || n.value == 0 ==> c == flagValue
  {
    match n
    case Some(k) => if k != 0 then k else flagValue
    case None => flagValue
  }

  /** Whether `set_n_cpu_devices` may go ahead for `count` on the current flags: parsing the
      current count must succeed, and if the backend exists that count must equal `count`. */
  function SetCheck(flags: string, initialised: bool, count: int): (r: Outcome<SetError>)
    ensures r == Pass <==>
              ParseDeviceCount(flags).Ok? && (!initialised || ParseDeviceCount(flags).value == count)
    ensures ParseDeviceCount(flags).Err? ==> r == Fail(UnparsableCount)
    ensures r.Fail? && initialised && ParseDeviceCount(flags).Ok? ==>
              r.error == BackendAlreadyInitialised(count, ParseDeviceCount(flags).value)
  {
    match ParseDeviceCount(flags)
    case Err(_) => Fail(UnparsableCount)
    case Ok(available) =>
      if initialised && available != count then Fail(BackendAlreadyInitialised(count, available))
      else Pass
  }

  /** Setting the count that was just set succeeds again, even once the backend exists. */
  lemma RepeatedSetSucceeds(flags: string, count: int)
    requires count >= 0
    ensures SetCheck(RewriteFlags(flags, count), true, count) == Pass
  {
    RewriteRoundTrip(flags, count);
  }

  /** Once the backend exists, only the count already in force can be set. */
  lemma SetAfterInitialisation(flags: string, count: int, other: int)
    requires count >= 0 && other != count
    ensures SetCheck(RewriteFlags(flags, count), true, other)
              == Fail(BackendAlreadyInitialised(other, count))
  {
    RewriteRoundTrip(flags, count);
  }

  /** A negative count is written with a minus sign, so the flags read back as 1: once the
      backend exists, setting that negative count again fails, and setting 1 succeeds. */
  lemma NegativeSetAfterInitialisation(flags: string, count: int)
    requires count < 0
    ensures SetCheck(RewriteFlags(flags, count), true, count)
              == Fail(BackendAlreadyInitialised(count, 1))
    ensures SetCheck(RewriteFlags(flags, count), true, 1) == Pass
  {
    RewriteNegative(flags, count);
  }

  class Environment {
    /** `os.environ['XLA_FLAGS']`; an unset variable is the empty string. */
    var xlaFlags: string
    /** Whether `jax.lib.xla_bridge._backends` already holds a 'cpu' entry. */
    var backendInitialised: bool
    /** `FLAGS['chex_n_cpu_devices'].value`. */
    var nCpuDevicesFlag: int

    constructor (flags: string, initialised: bool)
      ensures xlaFlags == flags && backendInitialised == initialised
      ensures nCpuDevicesFlag == DefaultNCpuDevices
    {
      xlaFlags := flags;
      backendInitialised := initialised;
      nCpuDevicesFlag := DefaultNCpuDevices;
    }

    /** `get_n_cpu_devices_from_xla_flags()`. */
    method GetNCpuDevicesFromXlaFlags() returns (r: Result<nat, ParseError>)
      ensures r == ParseDeviceCount(xlaFlags)
    {
      r := ParseDeviceCount(xlaFlags);
    }

    /** `set_n_cpu_devices(n)`: on success `XLA_FLAGS` starts with the flag for the requested
        count, followed by the tokens left once every flag match, with its trailing whitespace
        character, is removed; on failure nothing changes. */
    method SetNCpuDevices(n: Option<int>) returns (r: Outcome<SetError>)
      modifies this`xlaFlags
      ensures r == SetCheck(old(xlaFlags), backendInitialised, RequestedCount(n, nCpuDevicesFlag))
      ensures r.Pass? ==> xlaFlags == RewriteFlags(old(xlaFlags), RequestedCount(n, nCpuDevicesFlag))
      ensures r.Fail? ==> xlaFlags == old(xlaFlags)
      ensures r.Pass? && RequestedCount(n, nCpuDevicesFlag) >= 0 ==>
                ParseDeviceCount(xlaFlags) == Ok(RequestedCount(n, nCpuDevicesFlag))
      ensures r.Pass? && RequestedCount(n, nCpuDevicesFlag) < 0 ==> ParseDeviceCount(xlaFlags) == Ok(1)
    {
      var count := RequestedCount(n, nCpuDevicesFlag);
      var current := GetNCpuDevicesFromXlaFlags();
      if current.Err? {
        return Fail(UnparsableCount);
      }
      if backendInitialised && current.value != count {
        return Fail(BackendAlreadyInitialised(count, current.value));
      }
      xlaFlags := RewriteFlags(xlaFlags, count);
      if count >= 0 {
        RewriteRoundTrip(old(xlaFlags), count);
      } else {
        RewriteNegative(old(xlaFlags), count);
      }
      r := Pass;
    }
  }
}
