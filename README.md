# JVRev delay-length tuning

A Dafny model of how the JVRev reverb (a Schroeder/Moorer network of four
parallel comb filters, three series allpass diffusers and two output delay
lines) sizes its delay network when it is initialised. Nine nominal lengths,
tuned for 44.1 kHz, are copied into a working array. Each one is scaled by
`1.5 * fs / 44100` and truncated. It is then made odd with `v |= 1` and raised
by 2 until it is prime, and the result is written back in place. The tuned
lengths then go to the elements: combs get entries 0-3, allpasses get entries
4-6, and the left and right output delays get entries 7 and 8.

- `primes.dfy`, module `Primes`: primality (n >= 2 with no divisor in
  2..n-1) and Euclid's theorem (`PrimeAbove`). Euclid's theorem is the
  termination argument for the prime search.
- `reverb.dfy`, module `Reverb`: the default table, the scaled truncation,
  `v |= 1`, the search for one entry (`TuneLength`), and the class `JVRev`
  whose `Init` rewrites `length` in place and records each element's length.

`IsTunedLength(n, r)` specifies the search started from the truncated value
`n`. It says `r` is odd, prime and at least `n | 1`, and that no odd number
from `n | 1` up to `r` is prime. `TunedLengthUnique` shows this fixes `r`,
so `Init`'s postcondition determines every tuned length.

Prime lengths are chosen so that the delays are mutually prime and their
echoes rarely coincide. The code only makes each length prime, though, and
two lengths can be equal. At 8 kHz the left and right output delays both get
59 (`OutputDelaysCoincideAt8000`, `InitAt8000`). Nothing in `JVRev::init`
checks that the lengths are distinct.

## Model

| member | source | states |
|---|---|---|
| `Reverb.ScaledLength` | Reverb.cc:65-69 | the scaled value is the floor of `1.5 * fs / 44100 * nominal` in exact arithmetic: `n * 88200 <= 3 * fs * nominal < (n + 1) * 88200` |
| `Reverb.OrOne` | Reverb.cc:70 | `v \|= 1` gives the least odd integer not below `v` |
| `Reverb.TuneLength` | Reverb.cc:69-73 | the search result is odd, prime and not below the truncated value. No odd number from `v \| 1` up to the result is prime, and a start `v \| 1` that is already prime is returned unchanged |
| `Reverb.TunedLengthUnique` | Reverb.cc:70-72 | the search result is determined by its start value |
| `Reverb.SampleRateBound` | Reverb.cc:52-58 | every scaled nominal length is at least 2 if and only if `fs >= 1368`, so below that rate the search would start from 1 |
| `Reverb.SearchStep` | Reverb.cc:71-72 | skipping an odd non-prime `v` in steps of 2 passes no odd prime and stays at or below any odd prime bound above `v` |
| `Reverb.JVRev.TuneLengths` | Reverb.cc:52-74 | after copying `default_length` (the nine values of `DefaultLengths`) into `length` and rewriting every entry in place, entry i is the tuned length of `default_length[i]` at rate `fs`. Iteration i leaves entries after i at their copied defaults |
| `Reverb.JVRev.SizeElements` | Reverb.cc:76-83 | comb k records `length[k]`, allpass k records `length[k + 4]`, left records `length[7]` and right `length[8]`; in that order the recorded lengths are exactly `length`, each entry used once |
| `Reverb.JVRev.Init` | Reverb.cc:60-87 | entry i of `length` is the tuned length of `default_length[i]` at rate `fs`. Combs get entries 0-3, allpasses get entries 4-6, left gets entry 7 and right gets entry 8; read in that order, the element lengths are exactly the array, each entry used once. `apc` becomes 0.7 |
| `Reverb.OutputDelaysCoincideAt8000` | Reverb.cc:54 | at 8 kHz, default lengths 211 and 209 both tune to 59 |
| `Reverb.InitAt8000` | Reverb.cc:76-83 | a unit initialised at 8 kHz gives its left and right output delays the same length, 59 |
| `Primes.PrimeAbove` | Reverb.cc:71-72 | above every natural number there is a prime, so the `while` search terminates |
| `Primes.PrimeFactor` | Reverb.cc:71 | every number from 2 up has a prime divisor (a step towards `PrimeAbove`) |
| `Primes.PrimeAboveTwoIsOdd` | Reverb.cc:70-72 | a prime above 2 is odd, so stepping by 2 from an odd start reaches it |

## Left out

- The sample-rate scale and truncation `(int) (1.5*fs/44100. * length[i])` are double-precision operations. `ScaledLength` computes them exactly on an integer sample rate. Double rounding could differ by one only when the exact product is an integer, and no default length is a multiple of 49, so that does not happen at 48 kHz.
- Reverb.JVRev.Init: requires `fs >= 1368`, because below that rate a scaled length is 0 or 1. The search would then start at 1, and `DSP::isprime` (whose behaviour on 1 is unknown) is not part of this model.
- `DSP::isprime` is replaced by the predicate `Primes.IsPrime`. The loop guard evaluates that predicate directly.
- The C `int` width is not modelled: `v += 2` is unbounded. At audio sample rates the lengths are a few thousand, far from overflow.
- The delay, comb and allpass primitives and their `init` are in headers that are not part of this model. Each element's `init` is modelled as recording its length.
- `JVRev::set_t60`, `JVRev::activate` and `JVRev::cycle` are not modelled. Neither are the Plate units (`PlateStub::init`, `PlateStub::process`, `Plate::cycle`, `PlateX2::cycle`), the floating-point mode control, or the port tables and descriptor setup. All of this is floating-point signal processing or host registration, with no integer logic to prove.
- `apc` is the exact real 0.7. The unit stores the single-precision float nearest to it, 0.699999988….
- `fs` is set by the host before `init`. Here the `JVRev` constructor takes it as a parameter.
