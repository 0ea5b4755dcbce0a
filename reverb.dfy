/** Delay-length tuning of the JVRev Schroeder/Moorer reverb: nine nominal
    lengths are scaled to the sample rate, made odd and raised to the next
    prime, then handed to the four combs, three allpasses and two output
    delays of the network. */
module Reverb {
  import opened Primes

  /** Nominal lengths at 44.1 kHz (before the 1.5 scale): combs 0-3,
      allpasses 4-6, left and right output delays 7 and 8. */
  const DefaultLengths: seq<int> := [1777, 1847, 1993, 2137, 389, 127, 43, 211, 209]

  /** Lowest integer sample rate at which every scaled nominal length is at
      least 2 (see SampleRateBound). */
  const MinSampleRate: nat := 1368

  /** (int) (1.5 * fs / 44100 * nominal), in exact arithmetic: the truncation
      of fs * nominal * 3 / 88200. */
  function ScaledLength(fs: nat, nominal: nat): (n: nat)
    ensures n * 88200 <= 3 * fs * nominal < (n + 1) * 88200
  {
    3 * fs * nominal / 88200
  }

  /** `v |= 1`: setting the lowest bit of a two's-complement integer gives
      the least odd number not below it. */
  function OrOne(v: int): (r: int)
    ensures r % 2 == 1 && v <= r
    ensures forall k :: v <= k && k % 2 == 1 ==> r <= k
  {
    if v % 2 == 0 then v + 1 else v
  }

  /** No odd number in [lo, hi) is prime. */
  ghost predicate NoOddPrimeIn(lo: int, hi: int) {
    forall k :: lo <= k < hi && k % 2 == 1 ==> !IsPrime(k)
  }

  /** r is what the search started from the truncated scaled length n ends at:
      an odd prime, reached from OrOne(n) in steps of 2, with no odd prime
      skipped on the way. */
  ghost predicate IsTunedLength(n: int, r: int) {
    r % 2 == 1 && IsPrime(r) && OrOne(n) <= r && NoOddPrimeIn(OrOne(n), r)
  }

  /** The search result is determined by its start. */
  lemma TunedLengthUnique(n: int, r1: int, r2: int)
    requires IsTunedLength(n, r1) && IsTunedLength(n, r2)
    ensures r1 == r2
  {
  }

  /** One step of the search: skipping an odd v that is not prime keeps
      every odd prime ahead, and does not pass the odd bound p. */
  lemma SearchStep(lo: int, v: int, p: int)
    requires v % 2 == 1 && p % 2 == 1 && v <= p && IsPrime(p) && !IsPrime(v)
    requires NoOddPrimeIn(lo, v)
    ensures NoOddPrimeIn(lo, v + 2) && v + 2 <= p
  {
    forall k | lo <= k < v + 2 && k % 2 == 1
      ensures !IsPrime(k)
    {
      if k >= v {
        assert k == v;
      }
    }
  }

  /** The body of the tuning loop for one entry: `v |= 1`, then
      `while (!isprime (v)) v += 2`. */
  method TuneLength(n: int) returns (v: int)
    requires n >= 2
    ensures IsTunedLength(n, v)
    ensures v >= n && v % 2 == 1 && IsPrime(v)
    ensures IsPrime(OrOne(n)) ==> v == OrOne(n)
  {
    v := OrOne(n);
    ghost var p := PrimeAbove(v);
    PrimeAboveTwoIsOdd(p);
    while !IsPrime(v)
      invariant v % 2 == 1 && OrOne(n) <= v <= p
      invariant NoOddPrimeIn(OrOne(n), v)
      decreases p - v
    {
      SearchStep(OrOne(n), v, p);
      v := v + 2;
    }
  }

  /** Every nominal length scales to at least 2 exactly when fs >= MinSampleRate. */
  lemma SampleRateBound(fs: nat)
    ensures (forall i :: 0 <= i < |DefaultLengths| ==> ScaledLength(fs, DefaultLengths[i]) >= 2)
            <==> fs >= MinSampleRate
  {
    if fs >= MinSampleRate {
      forall i | 0 <= i < |DefaultLengths|
        ensures ScaledLength(fs, DefaultLengths[i]) >= 2
      {
        assert DefaultLengths[i] >= 43;
        assert 3 * fs * DefaultLengths[i] >= 3 * MinSampleRate * 43;
      }
    } else {
      assert ScaledLength(fs, DefaultLengths[6]) < 2;
    }
  }

  /** At 8 kHz the left and right output delays get the same length, 59:
      the nine tuned lengths are not always distinct. */
  lemma OutputDelaysCoincideAt8000()
    ensures IsTunedLength(ScaledLength(8000, DefaultLengths[7]), 59)
    ensures IsTunedLength(ScaledLength(8000, DefaultLengths[8]), 59)
  {
    assert ScaledLength(8000, DefaultLengths[7]) == 57;
    assert ScaledLength(8000, DefaultLengths[8]) == 56;
    forall d | 2 <= d < 59
      ensures !Divides(d, 59)
    {
      if d > 7 {
        assert (59 / d) * d <= 59;
      }
    }
    assert Divides(3, 57);
  }

  /** The JVRev unit's delay-network sizing. Each network element's `init`
      is modelled by the length it records. */
  class JVRev {
    /** Sample rate the host instantiated the unit with. */
    var fs: nat
    /** The tuned copy of DefaultLengths. */
    const length: array<int>
    const combLength: array<int>
    const allpassLength: array<int>
    var leftLength: int
    var rightLength: int
    /** Allpass diffuser coefficient (a single-precision float in the unit). */
    var apc: real

    ghost predicate Valid()
      reads this
    {
      length.Length == |DefaultLengths| && combLength.Length == 4 && allpassLength.Length == 3 &&
      length != combLength && length != allpassLength && combLength != allpassLength
    }

    /** The lengths handed to the network, in element order: combs,
        allpasses, left, right. */
    ghost function ElementLengths(): seq<int>
      reads this, combLength, allpassLength
    {
      combLength[..] + allpassLength[..] + [leftLength, rightLength]
    }

    constructor (sampleRate: nat)
      ensures Valid() && fs == sampleRate
      ensures fresh(length) && fresh(combLength) && fresh(allpassLength)
    {
      fs := sampleRate;
      length := new int[9];
      combLength := new int[4];
      allpassLength := new int[3];
    }

    /** The first half of JVRev::init: copy the defaults into `length`, then
        rewrite each entry with its tuned length. */
    method TuneLengths()
      requires Valid() && fs >= MinSampleRate
      modifies length
      ensures forall i :: 0 <= i < length.Length ==>
                IsTunedLength(ScaledLength(fs, DefaultLengths[i]), length[i])
    {
      SampleRateBound(fs);
      forall i | 0 <= i < length.Length {
        length[i] := DefaultLengths[i];
      }
      for i := 0 to length.Length
        invariant forall j :: 0 <= j < i ==>
                    IsTunedLength(ScaledLength(fs, DefaultLengths[j]), length[j])
        invariant forall j :: i <= j < length.Length ==> length[j] == DefaultLengths[j]
      {
        var v := TuneLength(ScaledLength(fs, length[i]));
        length[i] := v;
      }
    }

    /** JVRev::init: tune the nine lengths in place, then size the network. */
    method Init()
      requires Valid() && fs >= MinSampleRate
      modifies length, combLength, allpassLength, this`leftLength, this`rightLength, this`apc
      ensures Valid() && fs == old(fs)
      ensures forall i :: 0 <= i < length.Length ==>
                IsTunedLength(ScaledLength(fs, DefaultLengths[i]), length[i])
      ensures forall k :: 0 <= k < 4 ==> combLength[k] == length[k]
      ensures forall k :: 0 <= k < 3 ==> allpassLength[k] == length[k + 4]
      ensures leftLength == length[7] && rightLength == length[8]
      ensures ElementLengths() == length[..]
      ensures apc == 0.7
    {
      TuneLengths();
      SizeElements();
      apc := 0.7;
    }

    /** The second half of JVRev::init: comb k gets `length[k]`, allpass k
        gets `length[k + 4]`, left gets `length[7]` and right `length[8]`. */
    method SizeElements()
      requires Valid()
      modifies combLength, allpassLength, this`leftLength, this`rightLength
      ensures forall k :: 0 <= k < 4 ==> combLength[k] == length[k]
      ensures forall k :: 0 <= k < 3 ==> allpassLength[k] == length[k + 4]
      ensures leftLength == length[7] && rightLength == length[8]
      ensures ElementLengths() == length[..]
    {
      for i := 0 to 4
        invariant forall j :: 0 <= j < i ==> combLength[j] == length[j]
      {
        combLength[i] := length[i];
      }

      for i := 0 to 3
        invariant combLength[..] == length[..4]
        invariant forall j :: 0 <= j < i ==> allpassLength[j] == length[j + 4]
      {
        allpassLength[i] := length[i + 4];
      }

      leftLength := length[7];
      rightLength := length[8];
      assert allpassLength[..] == length[4..7];
      assert ElementLengths() == length[..4] + length[4..7] + length[7..];
    }
  }

  /** A unit instantiated at 8 kHz feeds both output delays the same length. */
  method InitAt8000() returns (left: int, right: int)
    ensures left == right == 59
  {
    var unit := new JVRev(8000);
    unit.Init();
    OutputDelaysCoincideAt8000();
    TunedLengthUnique(ScaledLength(8000, DefaultLengths[7]), unit.length[7], 59);
    TunedLengthUnique(ScaledLength(8000, DefaultLengths[8]), unit.length[8], 59);
    assert unit.ElementLengths()[7] == unit.leftLength;
    assert unit.ElementLengths()[8] == unit.rightLength;
    left, right := unit.leftLength, unit.rightLength;
  }
}
