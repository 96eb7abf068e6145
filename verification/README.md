# chex `fake.py`: device-count flags and the pmap-to-vmap `in_axes` rule

This project models the three pieces of sequential logic in chex's test-time
patching module `chex/_src/fake.py` and proves properties about them in Dafny.

- **Reading the device count** (`get_n_cpu_devices_from_xla_flags`). The
  `XLA_FLAGS` string is matched at its start against
  `[-]{0,2}xla_force_host_platform_device_count=(\d+)?(\s|$)`. The result is the
  captured number, or 1 when the string does not start with the flag. A flag with
  no digits makes `int(None)` raise, which the model reports as `MissingDigits`.
  The pattern is matched by a hand-written matcher, `DeviceCountFlag.MatchAt`.
  It is proved equal to a declarative reading of the pattern, `PatternAt`, in both
  directions.
- **Rewriting the device count** (`set_n_cpu_devices`). A missing or zero request
  falls back to the `chex_n_cpu_devices` flag. The call fails if the current count
  cannot be parsed. It also fails if the CPU backend exists and the parsed count
  differs from the request. Otherwise every occurrence of the flag is removed, in
  the same single left-to-right pass `re.sub` makes. The remaining text is split on
  whitespace and rejoined with single spaces behind a fresh
  `--xla_force_host_platform_device_count=n`. `CpuDevices.Environment` holds the
  process state as fields: `XLA_FLAGS`, whether the backend is initialised, and the
  flag value. Its `SetNCpuDevices` method updates `xlaFlags` and leaves it
  unchanged on failure. The rewrite is proved to round-trip through the parser for
  every non-negative count. A negative count does not round-trip: its minus sign
  stops the pattern from matching, so the rewritten flags parse as 1.
- **The `in_axes` vmap receives** (`_fake_pmap` and `wrapped_fn`). Building the
  stand-in turns an int `static_broadcasted_argnums` into a one-element sequence.
  It refuses a dict `in_axes` when there are static arguments. Each call then
  computes the axes list. With no statics, `in_axes` is passed through unchanged.
  With statics, the list has one entry per argument for an int `in_axes`, or is a
  copy of a sequence `in_axes`. The loop in `PmapInAxes.VmapInAxes` overwrites each
  static entry with the argument's all-`None` tree, using Python's negative
  indexing. If an argnum is out of range, or `in_axes` is `None`, the call raises.

An unset `XLA_FLAGS` and an empty one behave the same in both functions, so the
model uses the empty string for both. Pytrees are shapes (`Tree`) and axis
specifications (`AxisTree`). `jax.tree_map` with a constant function is `Fill`.
The positional arguments, already bound from the call's signature, are an input.

## Model

| member | source | states |
|---|---|---|
| `Text.DecimalValue` | chex/_src/fake.py:49 | `int` of a digit string of length `k` is a natural number below `10^k`; the digits are read most significant first |
| `Text.DecimalValueLeadingZero` | chex/_src/fake.py:49 | a leading zero does not change the value `int` reads, so `007` and `7` give the same count |
| `Text.Decimal` | chex/_src/fake.py:81 | `str(n)` for `n >= 0` is a non-empty digit string that reads back as `n`; it starts with `0` only for 0, and 0 is written `0` alone |
| `Text.IntToString` | chex/_src/fake.py:81 | `f'{n}'` is one whitespace-free token; it starts with `-` exactly when `n` is negative; it is `str(n)` for `n >= 0`, and a minus sign followed by `str(-n)` otherwise |
| `Text.Split` | chex/_src/fake.py:81 | `str.split()` yields only non-empty, whitespace-free tokens |
| `Text.SplitSkipsSpace` | chex/_src/fake.py:81 | whitespace in front of a string does not change its tokens |
| `Text.SplitGaps` | chex/_src/fake.py:81 | the whitespace `str.split()` discards forms one gap before, between and after the tokens: all whitespace, one more gap than tokens, and non-empty between two tokens |
| `Text.SplitGapsWeave` | chex/_src/fake.py:81 | every string is its tokens interleaved with those gaps, so `str.split()` loses only whitespace |
| `Text.SplitWeave` | chex/_src/fake.py:81 | whenever a string is whitespace-free words interleaved with whitespace gaps (non-empty between words), `str.split()` gives exactly those words, in order |
| `Text.JoinWithSpaces` | chex/_src/fake.py:80-81 | `' '.join` is the tokens interleaved with gaps that are empty at both ends and a single space between two tokens (`SingleSpaceGaps`); for whitespace-free tokens it is empty exactly when there are no tokens |
| `Text.SplitJoin` | chex/_src/fake.py:80-81 | splitting the space-join of whitespace-free tokens gives the same tokens back, in order |
| `DeviceCountFlag.MatchAt` | chex/_src/fake.py:40-41 | a match of the flag pattern at `i` ends after `i` and within the string, and its captured group is all digits |
| `DeviceCountFlag.MatchAtSound` | chex/_src/fake.py:40-41 | every match the matcher reports is a decomposition of the pattern: at most two dashes, the flag name, digits, then whitespace or the end |
| `DeviceCountFlag.MatchAtComplete` | chex/_src/fake.py:40-41 | every decomposition of the pattern at `i` is exactly the match reported: same digits, same end, trailing whitespace included |
| `DeviceCountFlag.ParseDeviceCount` | chex/_src/fake.py:44-50 | any result other than 1 comes from a match of the pattern at the start of the flags, and it is an error exactly when that match has no digits |
| `DeviceCountFlag.ParseMatched` | chex/_src/fake.py:44-50 | flags starting with the pattern parse to the decimal value of its digits, or fail with `MissingDigits` when there are none |
| `DeviceCountFlag.ParseUnmatched` | chex/_src/fake.py:44-50 | flags not starting with the pattern, including the empty string, parse to 1 |
| `DeviceCountFlag.RemoveFlags` | chex/_src/fake.py:79 | `re.sub` with an empty replacement never lengthens the string; what it keeps and drops is stated by `RemoveLeftmost` and `RemoveNone` |
| `DeviceCountFlag.RemoveShrinks` | chex/_src/fake.py:79 | removal from position `i` onwards yields at most the characters after `i` |
| `DeviceCountFlag.RemoveLeftmost` | chex/_src/fake.py:79 | removal keeps the text before the leftmost match, drops the match with its whitespace character, and resumes after it |
| `DeviceCountFlag.RemoveNone` | chex/_src/fake.py:79 | where no match starts, removal leaves the text unchanged |
| `DeviceCountFlag.CountFlag` | chex/_src/fake.py:81 | the new flag `--xla_force_host_platform_device_count=n` is a single whitespace-free token |
| `DeviceCountFlag.RewriteFlags` | chex/_src/fake.py:78-81 | the new value is the new flag followed by the tokens left after removal, in original order, with exactly one space between two tokens and nothing at either end; splitting it gives those tokens back |
| `DeviceCountFlag.RewriteLayout` | chex/_src/fake.py:80-81 | the new flag is followed by nothing or by a single space |
| `DeviceCountFlag.ParseCountFlag` | chex/_src/fake.py:44-50 | any string that starts with the flag for `n >= 0`, followed by nothing or a space, parses to `n` |
| `DeviceCountFlag.ParseNegativeFlag` | chex/_src/fake.py:44-50 | any string that starts with the flag for a negative `n` parses to 1, since the minus sign is neither a digit nor whitespace |
| `DeviceCountFlag.RewriteRoundTrip` | chex/_src/fake.py:78-81 | for `n >= 0`, parsing the rewritten flags gives `n` |
| `DeviceCountFlag.RewriteNegative` | chex/_src/fake.py:78-81 | for `n < 0`, the rewritten flags do not match the pattern and parse to 1 |
| `CpuDevices.RequestedCount` | chex/_src/fake.py:68 | a non-zero request is used as given; `None` or 0 falls back to the `chex_n_cpu_devices` value |
| `CpuDevices.SetCheck` | chex/_src/fake.py:70-76 | the set goes ahead exactly when the current count parses and, if the backend exists, equals the request; an unparsable count fails with `UnparsableCount`; otherwise the `RuntimeError` carries both counts |
| `CpuDevices.RepeatedSetSucceeds` | chex/_src/fake.py:70-81 | for a non-negative count, once it is set, setting the same count again succeeds even with the backend initialised |
| `CpuDevices.SetAfterInitialisation` | chex/_src/fake.py:70-76 | once a non-negative count is set and the backend exists, setting a different count fails with that pair of counts |
| `CpuDevices.NegativeSetAfterInitialisation` | chex/_src/fake.py:44-81 | once a negative count is set, the flags read back as 1: with the backend initialised, setting that count again fails with the pair (count, 1), and setting 1 succeeds |
| `CpuDevices.Environment.constructor` | chex/_src/fake.py:35-36 | the environment starts with the given flags and backend state, and `chex_n_cpu_devices` at its default of 1 |
| `CpuDevices.Environment.GetNCpuDevicesFromXlaFlags` | chex/_src/fake.py:44-50 | returns the parse of the current `XLA_FLAGS` |
| `CpuDevices.Environment.SetNCpuDevices` | chex/_src/fake.py:53-81 | on success `XLA_FLAGS` becomes the rewrite for the requested count, which parses back to that count when it is non-negative and to 1 when it is negative; on failure it is unchanged |
| `PmapInAxes.FakePmap` | chex/_src/fake.py:105-109 | an int argnum becomes a one-element sequence; a dict `in_axes` with static argnums raises, and nothing else does |
| `PmapInAxes.Fill` | chex/_src/fake.py:125 | mapping a constant over a tree gives a leaf for a leaf and a node with as many children for a node |
| `PmapInAxes.FillKeepsShape` | chex/_src/fake.py:125 | mapping a constant over a tree keeps its shape and sets every leaf to the constant |
| `PmapInAxes.FillUnique` | chex/_src/fake.py:125 | a tree whose leaves all equal a constant is that constant mapped over its shape |
| `PmapInAxes.PyIndex` | chex/_src/fake.py:130 | a Python index is accepted exactly when it lies in `[-len, len)`, and selects the entry congruent to it modulo `len` |
| `PmapInAxes.BaseAxes` | chex/_src/fake.py:124-128 | `list(vmap_in_axes)` raises `TypeError` exactly for `None`; an int gives one tree of that axis per argument; a sequence is copied as is |
| `PmapInAxes.ApplyStatics` | chex/_src/fake.py:128-130 | overwriting static entries keeps the list's length; it succeeds exactly when every argnum indexes both the arguments and the list, and otherwise raises `IndexError` |
| `PmapInAxes.ApplyStaticsKeeps` | chex/_src/fake.py:129-130 | an entry no static argnum designates keeps its value |
| `PmapInAxes.ApplyStaticsLastWrite` | chex/_src/fake.py:129-130 | a designated entry holds the all-`None` tree of the argument picked by the last argnum designating it |
| `PmapInAxes.ApplyStaticsBroadcast` | chex/_src/fake.py:129-130 | when the list has one entry per argument, every static argument's entry is its own all-`None` tree |
| `PmapInAxes.VmapInAxesSpec` | chex/_src/fake.py:123-132 | with no statics `in_axes` passes through unchanged; with statics, `None` raises `TypeError`, an out-of-range argnum raises `IndexError`, and otherwise the result is a list with one entry per argument or per given entry |
| `PmapInAxes.IntAxesPerArgument` | chex/_src/fake.py:124-130 | with an int `in_axes`, the list has one entry per argument: all-`None` trees for statics, trees of that axis elsewhere |
| `PmapInAxes.SeqAxesPerArgument` | chex/_src/fake.py:126-130 | with a sequence `in_axes`, the list is as long as the sequence, non-static entries are copied, and static entries are all-`None` trees when the lengths agree |
| `PmapInAxes.VmapInAxes` | chex/_src/fake.py:118-132 | the loop over the static argnums computes exactly `VmapInAxesSpec` |

## Left out

- `fake_jit`, `fake_pmap`, `fake_pmap_and_jit` and `FakeContext` (chex/_src/fake.py:160-300): they only patch global names with `mock.patch` and toggle `jax.config`, and have no logic of their own to state.
- `OnCallOfTransformedFunction` (chex/_src/fake.py:303-371): it swaps a named global for a wrapper that calls back before delegating. That is import and mocking machinery.
- `_fake_jit`, `_identity`, `_fake_psum`, `_fake_pmean`, `_fake_pmax`, `_fake_pmin` and `_fake_all_gather` (chex/_src/fake.py:90-157): identities, or array indexing in the numerical library.
- `convert_to_varargs` and `inspect.signature` (chex/_src/fake.py:84-87, 111-121): binding keyword arguments is Python's own machinery. The model takes the bound positional arguments as input.
- The calls to `jax.vmap` and `jax.jit`, `axis_name`, `jit_result` and the final call (chex/_src/fake.py:134-139): they belong to the numerical library. The model stops at the `in_axes` handed to vmap.
- Flag registration and the backend registry (chex/_src/fake.py:34-38, 71): the flag value is a field that starts at its default of 1. The existence of a `'cpu'` backend is a boolean field. `chex_assert_multiple_cpu_devices` is not read by the modelled code.
- Non-ASCII characters: `\d`, `\s`, `int()` and `str.split()` also accept Unicode digits and whitespace. The model classifies ASCII characters only.
- Python's limit on the length of integer strings: `int()` and `str()` of numbers with more than 4300 digits raise `ValueError`. The model has no such limit.
- `static_broadcasted_argnums` given as a one-shot iterator, and `bool` values passing `isinstance(..., int)`: the model takes an int or a finite sequence of ints.
- The difference between a list and a tuple as `in_axes`, and the element type of a dict `in_axes`: both are kept only as far as the code tells them apart.
