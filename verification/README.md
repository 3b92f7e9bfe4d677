# TD_listen control core, in Dafny

`TD_listen.py` drives a pretrained StyleGAN2 generator from another program.
It listens on a UDP port for text commands. `seed_<n>` renders the image for
seed `n`, and `Exit` stops the listener. The same file also has the seed-list
parser `_parse_num_range`, which reads `a-b` as an inclusive range and
`a,b,c` as a list.

This project models two pieces of pure logic and proves their behaviour:

- **`NumRange`** models `_parse_num_range`. A text matching `^(\d+)-(\d+)$`
  becomes Python's `range(a, b + 1)`. Any other text is split on `,` and each
  field goes through `int()`. The first field that fails makes the whole parse
  fail.
- **`Listen`** models the decode/dispatch part of the `while background` loop
  in `generate_images`:
  - The state is `(background, seed)`, and it starts at `(true, 1)`.
  - The exact message `Exit` clears `background`.
  - The message is split on `_`. If the first token is `seed`, the second
    token becomes the new seed and one image is generated. A seed outside
    0..2^32-1 raises instead.
  - Anything else changes nothing.
  - The loop is a fold (`Run`) over the messages received. It stops after
    the first `Exit`, or at the first exception, because nothing in the loop
    catches one.

Supporting modules:

- `Strings` models Python's `str.split` for one separator character. Its
  inverse is `Join`, and the split is proved to be the unique separator-free
  decomposition that `Join` reverses.
- `Ints` models `int()` on an optional `-` followed by ASCII digits. Its
  partner is the canonical spelling `ShowInt`, with the round trip
  `ParseInt(ShowInt(n)) == Success(n)`.
- `Wrappers` holds `Result` and `Option`.

Exceptions become `Failure` values:

- `int()` raising `ValueError` becomes `IntError.NotAnInteger`.
- `reply[1]` raising `IndexError` becomes `LoopError.MissingSeedToken`.
- `np.random.RandomState(seed)` raising `ValueError` becomes
  `LoopError.SeedOutOfRange`. It rejects seeds below 0 or at or above 2^32
  (TD_listen.py:107).

A generation is an abstract event. It records the seed that the image would
be rendered from, in `Trace.seeds`. That seed is always in the generator's
range 0..2^32-1.

Nothing in the loop catches an exception, so a malformed seed command ends
the loop (`Run` returns a `Trace` whose `failure` is set). A seed outside
0..2^32-1 ends it the same way. The truncation value is forwarded unchecked
(TD_listen.py:103-104).

## Model

| member | source | states |
|---|---|---|
| Strings.Split | TD_listen.py:99 | `reply.split('_')` always has at least one token, no token contains the separator, and joining the tokens with the separator gives back the message |
| Strings.SplitCharacterization | TD_listen.py:99 | the split is exactly the non-empty, separator-free list of fields that joins back to the text, so it is determined by the text |
| Strings.SplitHead | TD_listen.py:99-100 | the first token (`reply[0]`) is the text before the first separator |
| Ints.ParseInt | TD_listen.py:101 | `int(token)` succeeds exactly on an optional `-` followed by ASCII digits; a failure names the offending text; unsigned literals give non-negative values and signed ones non-positive values |
| Ints.ParseShowInt | TD_listen.py:101 | every integer's decimal spelling is a literal that `int()` reads back as that integer |
| NumRange.Range | TD_listen.py:131 | `range(a, b + 1)` has `max(0, b - a + 1)` elements and element `i` is `a + i` |
| NumRange.MatchRange | TD_listen.py:128-130 | a match of `^(\d+)-(\d+)$` gives two non-empty digit groups that, joined by `-`, are the whole text; the converse is `NumRange.MatchRangeSpec` |
| NumRange.MatchRangeSpec | TD_listen.py:128-130 | the regex `^(\d+)-(\d+)$` matches with groups `(a, b)` if and only if the text is `a-b` with `a` and `b` non-empty digit strings |
| NumRange.ParseFields | TD_listen.py:132-133 | the list comprehension succeeds if and only if every field is an integer literal; then it yields one value per field, in field order; otherwise it reports the first bad field and returns no partial list |
| NumRange.ParseNumRange | TD_listen.py:125-133 | `_parse_num_range` itself: a range text never fails and yields non-negative consecutive integers; any other text succeeds if and only if every comma field is an integer literal, and then yields one value per field; `NumRange.RangeForm` and `NumRange.ListForm` give the exact values |
| NumRange.RangeForm | TD_listen.py:128-131 | for digit strings `a`, `b`, parsing `a-b` yields exactly the consecutive integers from `a` to `b`, `max(0, b - a + 1)` of them |
| NumRange.EmptyRange | TD_listen.py:131 | a reversed range `a-b` with `a > b` yields the empty list, not an error |
| NumRange.RangeFormNonNegative | TD_listen.py:128-131 | whatever the range form yields is non-negative |
| NumRange.LeadingMinusIsList | TD_listen.py:128-133 | a text starting with `-` never matches the range form and is parsed as a comma list |
| NumRange.ListForm | TD_listen.py:132-133 | a text that is not a range succeeds if and only if every comma field is an integer, and then yields one integer per field in input order |
| NumRange.ListFormError | TD_listen.py:132-133 | if any comma field of a non-range text is not an integer, the whole parse fails |
| NumRange.SingleNumber | TD_listen.py:125-133 | the spelling of a single integer `n`, negative or not, yields `[n]` |
| NumRange.MultiDashFails | TD_listen.py:128-133 | a text like `1-2-3` (three digit groups, two dashes) fails |
| NumRange.EmptyFieldFails | TD_listen.py:132-133 | a comma list with an empty field (`1,,2`, a trailing comma) fails |
| Listen.Step | TD_listen.py:96-107 | one iteration clears `background` exactly on the message `Exit`; without a generation the seed is unchanged; `Exit` never generates; a generation only happens for a seed in 0..2^32-1 |
| Listen.FirstTokenIsSeed | TD_listen.py:99-100 | the first `_` token is `seed` if and only if the message is `seed` or starts with `seed_` |
| Listen.StepMatchesCommand | TD_listen.py:96-111 | on every message, the split-based loop body agrees with a reference decoder that classifies messages by prefix tests alone |
| Listen.StepExit | TD_listen.py:96-97 | `Exit` clears `background`, keeps the seed, and generates nothing |
| Listen.StepExitNow | TD_listen.py:96-100 | `Exit_now` is not `Exit`: it changes nothing and generates nothing |
| Listen.StepSeed | TD_listen.py:99-111 | `seed_<n>`, followed by nothing or by further `_` tokens, sets the seed to `n` and generates exactly once when `0 <= n < 2^32`, and otherwise raises the out-of-range error; the extra tokens are ignored |
| Listen.StepSeedErrors | TD_listen.py:100-101 | `seed` with no second token raises the missing-token error; a non-integer second token raises the integer error naming that token |
| Listen.StepIgnored | TD_listen.py:96-100 | a message that is not `Exit`, not `seed` and does not start with `seed_` leaves the state unchanged and generates nothing |
| Listen.Run | TD_listen.py:84-101 | the loop consumes at most the messages given; it consumes no `Exit` before its last message; it stops early only after `Exit` or an exception; a stop by `Exit` follows the message `Exit`; an exception comes from a seed command; the final seed is the last seed generated from, or the starting one |
| Listen.RunSeeds | TD_listen.py:84-111 | the seeds generated from are exactly, in order, the in-range values named by the seed commands consumed, including in a run that ends in an exception |
| Listen.RunGenerations | TD_listen.py:84-111 | without an exception, there is one generation per seed command consumed |
| Listen.SeedOutOfRangeEndsLoop | TD_listen.py:99-107 | `seed_<n>` with `n` outside 0..2^32-1 raises, generates nothing, and ends the loop on that message, so later messages are never read |
| Listen.RunIgnoresTail | TD_listen.py:84-97 | once the loop has stopped (by `Exit` or an exception), messages after that point do not affect the outcome |
| Listen.RunStopsAtFirstExit | TD_listen.py:84-111 | without an exception, the loop reads up to and including the first `Exit` and generates once per seed command before it |
| Listen.RunWithoutSeedCommands | TD_listen.py:84-101 | messages with no seed command never raise, never generate, and keep the seed |
| Listen.Listen | TD_listen.py:79-121 | the listener as started, from `background = True` and `seed = 1`: it reads at least the first message, keeps seed 1 if it generates nothing, and generates from exactly the in-range values named by the seed commands it consumed |
| Listen.ListenStartsAtSeedOne | TD_listen.py:79-82 | the listener starts with seed 1 and keeps it until a seed command arrives |
| Listen.ListenScenario | TD_listen.py:79-111 | `seed_42`, `hello`, `Exit`, `seed_7` generates once from seed 42, stops after the third message, and never reads the fourth |

## Left out

- Sockets (TD_listen.py:49-68, 89, 118, 121) are I/O and are left out: socket
  creation, bind, the `Ready` datagram, `recvfrom` with its 1024-byte buffer,
  and `close`. The received messages are the input sequence of `Run`.
- The console `print` calls (TD_listen.py:55, 62, 71, 80-81, 94, 106) are
  output-only I/O and are left out.
- UTF-8 decoding (TD_listen.py:93) and `msg_to_bytes` (TD_listen.py:28-29)
  are external codecs. Messages are already strings.
- Spout, pygame and OpenGL setup (TD_listen.py:22-26, 37-46) is foreign
  graphics interop and is left out.
- Model loading and inference are TensorFlow, floating-point PRNG and file
  I/O (TD_listen.py:72-77, 103-111). This covers network loading, the noise
  variables, `np.random.RandomState(seed).randn`, `Gs.run` and the PNG save.
  A generation is only the seed recorded in `Trace.seeds`.
- The truncation value (TD_listen.py:103-104) is forwarded unchecked to
  inference, so there is nothing to model.
- `main` (TD_listen.py:154-195) is argparse and job-submission plumbing and
  is left out. This includes the missing-subcommand exit.
- `example_model.py` is left out because it is entirely TensorFlow and NumPy
  float work.
- `runway_model.py` is left out because it is Runway framework registration
  with no logic.
- Ints.ParseInt: accepts only an optional `-` followed by ASCII digits. Python's
  `int()` also accepts surrounding whitespace, a `+` sign, digit-group
  underscores and non-ASCII Unicode digits. The model rejects such text,
  where Python would accept it.
- NumRange.MatchRange, NumRange.MatchRangeSpec: the range regex is modelled with ASCII digits only.
  Python's `\d` also matches Unicode digits, and its `$` also matches before
  a trailing newline. The model treats those texts as list form.
- Listen.Run: models the messages received so far as a finite sequence. The
  real loop blocks forever waiting for more. A run that ends without `Exit`
  or an exception only means the input ran out.
- Listen.Run: the state at an exception is the state before the failing
  message. For an out-of-range seed, the code has already assigned `seed`
  (TD_listen.py:101) before `RandomState` raises (TD_listen.py:107). The
  process ends there, so that assignment is never observed and is not
  recorded.
