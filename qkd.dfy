/**
 * The classical post-processing of the BB84 quantum key distribution
 * simulator (backend/app/security/qkd.py): sifting, error estimation with
 * removal of the disclosed test bits, stretching of the remaining bits before
 * hashing, and the sequencing of one protocol run.
 *
 * The quantum part (preparing, intercepting and measuring qubits) and the
 * random choices are not computed here: they are parameters. SHA-256 with
 * its hex digest is the function parameter `digest`.
 */
module Qkd {
  import opened Wrappers

  /** A bit, or a basis choice (0 is the Z basis, 1 the X basis), as the Python lists hold them. */
  type Bit = b: int | 0 <= b <= 1

  type Byte = b: int | 0 <= b < 256

  function Min(a: int, b: int): int { if a <= b then a else b }

  function Max(a: int, b: int): int { if a >= b then a else b }

  ghost predicate Increasing(r: seq<nat>) {
    forall j, k :: 0 <= j < k < |r| ==> r[j] < r[k]
  }

  predicate Distinct(t: seq<nat>) {
    forall j, k :: 0 <= j < k < |t| ==> t[j] != t[k]
  }

  /** The elements of `s` at `positions`, in the order the positions are listed. */
  function Select<T>(s: seq<T>, positions: seq<nat>): (r: seq<T>)
    requires forall j :: 0 <= j < |positions| ==> positions[j] < |s|
    ensures |r| == |positions|
    ensures forall j :: 0 <= j < |r| ==> r[j] == s[positions[j]]
  {
    seq(|positions|, j requires 0 <= j < |positions| => s[positions[j]])
  }

  // ---------------------------------------------------------------------
  // Sifting
  // ---------------------------------------------------------------------

  /** Python's zip stops at the shortest of the four lists. */
  function SiftWindow(aliceBits: seq<Bit>, aliceBases: seq<Bit>, bobBases: seq<Bit>, bobResults: seq<Bit>): nat
  {
    Min(Min(|aliceBits|, |aliceBases|), Min(|bobBases|, |bobResults|))
  }

  /** The positions below `n` where Alice and Bob chose the same basis, in increasing order. */
  function MatchingBases(aliceBases: seq<Bit>, bobBases: seq<Bit>, n: nat): (kept: seq<nat>)
    requires n <= |aliceBases| && n <= |bobBases|
    ensures |kept| <= n
    ensures forall j :: 0 <= j < |kept| ==> kept[j] < n && aliceBases[kept[j]] == bobBases[kept[j]]
  {
    if n == 0 then []
    else MatchingBases(aliceBases, bobBases, n - 1) + (if aliceBases[n - 1] == bobBases[n - 1] then [n - 1] else [])
  }

  /** Every position below `n` where the bases agree is kept. */
  lemma {:induction false} MatchingBasesComplete(aliceBases: seq<Bit>, bobBases: seq<Bit>, n: nat, i: nat)
    requires n <= |aliceBases| && n <= |bobBases|
    requires i < n && aliceBases[i] == bobBases[i]
    ensures i in MatchingBases(aliceBases, bobBases, n)
  {
    if i < n - 1 {
      MatchingBasesComplete(aliceBases, bobBases, n - 1, i);
    }
  }

  /** The kept positions are listed in increasing order. */
  lemma {:induction false} MatchingBasesIncreasing(aliceBases: seq<Bit>, bobBases: seq<Bit>, n: nat)
    requires n <= |aliceBases| && n <= |bobBases|
    ensures Increasing(MatchingBases(aliceBases, bobBases, n))
  {
    if n > 0 {
      MatchingBasesIncreasing(aliceBases, bobBases, n - 1);
    }
  }

  /** Sifting keeps exactly the positions where the bases agree, in order. */
  lemma MatchingBasesExactly(aliceBases: seq<Bit>, bobBases: seq<Bit>, n: nat)
    requires n <= |aliceBases| && n <= |bobBases|
    ensures var kept := MatchingBases(aliceBases, bobBases, n);
            && Increasing(kept)
            && forall i :: 0 <= i < n ==> (i in kept <==> aliceBases[i] == bobBases[i])
  {
    MatchingBasesIncreasing(aliceBases, bobBases, n);
    forall i | 0 <= i < n && aliceBases[i] == bobBases[i]
      ensures i in MatchingBases(aliceBases, bobBases, n)
    {
      MatchingBasesComplete(aliceBases, bobBases, n, i);
    }
  }

  /**
   * The obligation of the abstracted quantum channel: wherever the bases
   * agree and the qubit was not intercepted, Bob measures Alice's bit.
   * `intercepted` is all false when no eavesdropper is simulated.
   */
  ghost predicate FaithfulMeasurement(aliceBits: seq<Bit>, aliceBases: seq<Bit>, bobBases: seq<Bit>,
                                      bobResults: seq<Bit>, intercepted: seq<bool>)
  {
    && |aliceBases| == |aliceBits| && |bobBases| == |aliceBits|
    && |bobResults| == |aliceBits| && |intercepted| == |aliceBits|
    && forall i :: 0 <= i < |aliceBits| && aliceBases[i] == bobBases[i] && !intercepted[i] ==> bobResults[i] == aliceBits[i]
  }

  /** With a faithful channel, the sifted lists can differ only at intercepted qubits. */
  lemma SiftedDisagreeOnlyWhereIntercepted(aliceBits: seq<Bit>, aliceBases: seq<Bit>, bobBases: seq<Bit>,
                                          bobResults: seq<Bit>, intercepted: seq<bool>)
    requires FaithfulMeasurement(aliceBits, aliceBases, bobBases, bobResults, intercepted)
    ensures var kept := MatchingBases(aliceBases, bobBases, |aliceBits|);
            forall j :: 0 <= j < |kept| && Select(aliceBits, kept)[j] != Select(bobResults, kept)[j] ==> intercepted[kept[j]]
  {
  }

  // ---------------------------------------------------------------------
  // Error estimation and removal of the test bits
  // ---------------------------------------------------------------------

  /**
   * The number of test positions: max(1, int(len * 0.1)) capped at len.
   * For every length a list can have, int(len * 0.1) equals len / 10,
   * because the double nearest to 0.1 lies just above 1/10.
   */
  function SampleSize(n: nat): (k: nat)
    ensures k <= n
    ensures k == 0 <==> n == 0
    ensures n > 0 ==> k >= 1 && k >= n / 10
  {
    Min(Max(1, n / 10), n)
  }

  /** What random.sample(range(n), SampleSize(n)) returns: distinct indices below n. */
  ghost predicate IsSample(t: seq<nat>, n: nat) {
    && |t| == SampleSize(n)
    && (forall j :: 0 <= j < |t| ==> t[j] < n)
    && Distinct(t)
  }

  /** The number of tested positions where the two sifted lists differ. */
  function Mismatches(a: seq<Bit>, b: seq<Bit>, tested: seq<nat>): (errors: nat)
    requires forall j :: 0 <= j < |tested| ==> tested[j] < |a| && tested[j] < |b|
    ensures errors <= |tested|
  {
    if tested == [] then 0
    else
      var last := tested[|tested| - 1];
      Mismatches(a, b, tested[..|tested| - 1]) + (if a[last] != b[last] then 1 else 0)
  }

  /** No error is counted exactly when the two lists agree at every tested position. */
  lemma {:induction false} NoMismatchesIffAgreement(a: seq<Bit>, b: seq<Bit>, tested: seq<nat>)
    requires forall j :: 0 <= j < |tested| ==> tested[j] < |a| && tested[j] < |b|
    ensures Mismatches(a, b, tested) == 0 <==> forall j :: 0 <= j < |tested| ==> a[tested[j]] == b[tested[j]]
  {
    if tested != [] {
      NoMismatchesIffAgreement(a, b, tested[..|tested| - 1]);
    }
  }

  /** errors / tested > 0.11, compared in integers; an empty sample has rate 0. */
  predicate ExceedsThreshold(errors: nat, tested: nat) {
    tested > 0 && 100 * errors > 11 * tested
  }

  /** The integer comparison is the source's comparison of the error rate with 0.11. */
  lemma ThresholdIsElevenPercent(errors: nat, tested: nat)
    ensures ExceedsThreshold(errors, tested) <==> tested > 0 && errors as real / tested as real > 0.11
  {
    if tested > 0 {
      var e, t := errors as real, tested as real;
      var rate := e / t;
      assert rate * t == e;
      if 100 * errors > 11 * tested {
        assert e > 0.11 * t;
        if rate <= 0.11 {
          RealScale(rate, 0.11, t);
        }
      } else {
        assert e <= 0.11 * t;
        if rate > 0.11 {
          RealScale(0.11, rate, t);
        }
      }
    }
  }

  lemma RealScale(x: real, y: real, t: real)
    requires t > 0.0 && x <= y
    ensures x * t <= y * t && (x < y ==> x * t < y * t)
  {
  }

  /**
   * The verdict of detect_eavesdropping: unequal lengths, or too many errors
   * in the sample. Lists of one length are only flagged over a non-empty
   * sample in which at least one tested position disagrees.
   */
  function EavesdroppingDetected(aliceSifted: seq<Bit>, bobSifted: seq<Bit>, testIndices: seq<nat>): (detected: bool)
    requires |aliceSifted| == |bobSifted| ==> forall j :: 0 <= j < |testIndices| ==> testIndices[j] < |aliceSifted|
    ensures |aliceSifted| != |bobSifted| ==> detected
    ensures detected && |aliceSifted| == |bobSifted| ==>
              |testIndices| > 0 && Mismatches(aliceSifted, bobSifted, testIndices) > 0
  {
    || |aliceSifted| != |bobSifted|
    || ExceedsThreshold(Mismatches(aliceSifted, bobSifted, testIndices), |testIndices|)
  }

  /** Identical sifted lists never raise the alarm, whatever the sample. */
  lemma {:induction false} AgreementIsNeverDetected(sifted: seq<Bit>, testIndices: seq<nat>)
    requires forall j :: 0 <= j < |testIndices| ==> testIndices[j] < |sifted|
    ensures !EavesdroppingDetected(sifted, sifted, testIndices)
  {
    NoMismatchesIffAgreement(sifted, sifted, testIndices);
  }

  /** The positions below `n` that were not tested, in increasing order. */
  function Untested(n: nat, tested: seq<nat>): (r: seq<nat>)
    ensures |r| <= n
    ensures forall j :: 0 <= j < |r| ==> r[j] < n && r[j] !in tested
  {
    if n == 0 then []
    else Untested(n - 1, tested) + (if n - 1 in tested then [] else [n - 1])
  }

  /** The untested positions are listed in increasing order. */
  lemma {:induction false} UntestedIncreasing(n: nat, tested: seq<nat>)
    ensures Increasing(Untested(n, tested))
  {
    if n > 0 {
      UntestedIncreasing(n - 1, tested);
    }
  }

  /** Every untested position below `n` is kept. */
  lemma {:induction false} UntestedComplete(n: nat, tested: seq<nat>, i: nat)
    requires i < n && i !in tested
    ensures i in Untested(n, tested)
  {
    if i < n - 1 {
      UntestedComplete(n - 1, tested, i);
    }
  }

  /**
   * `[bit for i, bit in enumerate(s) if i not in tested]`: never longer than
   * `s`, and all of `s` when nothing was tested.
   */
  function WithoutTested(s: seq<Bit>, tested: seq<nat>): (r: seq<Bit>)
    ensures |r| <= |s|
    ensures tested == [] ==> r == s
  {
    UntestedNothing(|s|);
    Select(s, Untested(|s|, tested))
  }

  /** With nothing tested, every position below `n` is listed, in order. */
  lemma {:induction false} UntestedNothing(n: nat)
    ensures |Untested(n, [])| == n
    ensures forall j :: 0 <= j < n ==> Untested(n, [])[j] == j
  {
    if n > 0 {
      UntestedNothing(n - 1);
    }
  }

  /** How many entries of `tested` lie below `n`. */
  function CountBelow(tested: seq<nat>, n: nat): (c: nat)
    ensures c <= |tested|
    ensures n == 0 ==> c == 0
  {
    if tested == [] then 0
    else CountBelow(tested[..|tested| - 1], n) + (if tested[|tested| - 1] < n then 1 else 0)
  }

  lemma {:induction false} CountBelowStep(tested: seq<nat>, n: nat)
    requires Distinct(tested)
    ensures CountBelow(tested, n + 1) == CountBelow(tested, n) + (if n in tested then 1 else 0)
  {
    if tested != [] {
      var init, last := tested[..|tested| - 1], tested[|tested| - 1];
      assert tested == init + [last];
      assert Distinct(init);
      CountBelowStep(init, n);
      if last == n {
        assert n !in init by {
          forall j | 0 <= j < |init| ensures init[j] != n {
            assert tested[j] != tested[|tested| - 1];
          }
        }
      }
    }
  }

  lemma {:induction false} CountBelowAll(tested: seq<nat>, n: nat)
    requires forall j :: 0 <= j < |tested| ==> tested[j] < n
    ensures CountBelow(tested, n) == |tested|
  {
    if tested != [] {
      CountBelowAll(tested[..|tested| - 1], n);
    }
  }

  lemma {:induction false} UntestedLength(n: nat, tested: seq<nat>)
    requires Distinct(tested)
    ensures |Untested(n, tested)| + CountBelow(tested, n) == n
  {
    if n > 0 {
      UntestedLength(n - 1, tested);
      CountBelowStep(tested, n - 1);
    }
  }

  /** Removing a sample of k distinct in-range positions shortens a list by exactly k. */
  lemma WithoutTestedLength(s: seq<Bit>, testIndices: seq<nat>)
    requires IsSample(testIndices, |s|)
    ensures |WithoutTested(s, testIndices)| == |s| - |testIndices|
    ensures |WithoutTested(s, testIndices)| == |s| - SampleSize(|s|)
  {
    UntestedLength(|s|, testIndices);
    CountBelowAll(testIndices, |s|);
  }

  /**
   * The remaining key material depends only on the undisclosed bits: two
   * lists that agree at every untested position lose their differences.
   * The same fact says that Alice's and Bob's lists still agree wherever
   * they agreed before the test bits were dropped.
   */
  lemma UndisclosedBitsDetermineRemainder(a: seq<Bit>, b: seq<Bit>, tested: seq<nat>)
    requires |a| == |b|
    requires forall i :: 0 <= i < |a| && i !in tested ==> a[i] == b[i]
    ensures WithoutTested(a, tested) == WithoutTested(b, tested)
  {
  }

  /** The remainder keeps its order and leaves out exactly the tested positions. */
  lemma UntestedExactly(n: nat, tested: seq<nat>)
    ensures var kept := Untested(n, tested);
            && Increasing(kept)
            && forall i :: 0 <= i < n ==> (i in kept <==> i !in tested)
  {
    UntestedIncreasing(n, tested);
    forall i | 0 <= i < n && i !in tested
      ensures i in Untested(n, tested)
    {
      UntestedComplete(n, tested, i);
    }
  }

  // ---------------------------------------------------------------------
  // Stretching and encoding before the hash
  // ---------------------------------------------------------------------

  predicate IsBitString(s: string) {
    forall i :: 0 <= i < |s| ==> s[i] == '0' || s[i] == '1'
  }

  /** str(b) for a bit. */
  function BitChar(b: Bit): char {
    if b == 1 then '1' else '0'
  }

  /** "".join(map(str, bits)) */
  function BitString(bits: seq<Bit>): (s: string)
    ensures |s| == |bits| && IsBitString(s)
  {
    seq(|bits|, i requires 0 <= i < |bits| => BitChar(bits[i]))
  }

  /** The string `s` written out `times` times in a row. */
  function Repeat(s: string, times: nat): (r: string)
    ensures |r| == |s| * times
    ensures IsBitString(s) ==> IsBitString(r)
  {
    if times == 0 then [] else s + Repeat(s, times - 1)
  }

  lemma {:induction false} RepeatAdd(s: string, a: nat, b: nat)
    ensures Repeat(s, a + b) == Repeat(s, a) + Repeat(s, b)
  {
    if a > 0 {
      RepeatAdd(s, a - 1, b);
      assert Repeat(s, a + b) == s + Repeat(s, a - 1 + b);
    }
  }

  /** Two repetitions of `s` agree on every common prefix. */
  lemma RepeatPrefix(s: string, a: nat, b: nat, n: nat)
    requires a <= b && n <= |s| * a
    ensures n <= |Repeat(s, b)| && Repeat(s, a)[..n] == Repeat(s, b)[..n]
  {
    RepeatAdd(s, a, b - a);
  }

  /** The string after `rounds` passes of `bit_string += bit_string`. */
  function Doubled(s: string, rounds: nat): (r: string)
    decreases rounds
  {
    if rounds == 0 then s else Doubled(s + s, rounds - 1)
  }

  /** Doubling the empty string never lengthens it: the loop cannot end on empty input. */
  lemma DoublingEmptyStaysEmpty(rounds: nat)
    ensures Doubled("", rounds) == ""
  {
    DoubledIsRepeat("", rounds);
  }

  /** `rounds` doublings write `s` out 2^rounds times. */
  lemma {:induction false} DoubledIsRepeat(s: string, rounds: nat)
    ensures Doubled(s, rounds) == Repeat(s, Pow2(rounds))
    decreases rounds
  {
    if rounds > 0 {
      DoubledIsRepeat(s + s, rounds - 1);
      RepeatTwice(s, Pow2(rounds - 1));
    }
  }

  /** Repeating `s + s` k times is repeating `s` 2k times. */
  lemma {:induction false} RepeatTwice(s: string, k: nat)
    ensures Repeat(s + s, k) == Repeat(s, 2 * k)
  {
    if k > 0 {
      RepeatTwice(s, k - 1);
      RepeatAdd(s, 2, 2 * k - 2);
      assert Repeat(s, 2) == s + s;
    }
  }

  /** The first `keyLength` characters of the bit string of `bits` repeated: what the doubling loop and the slice leave. */
  function Stretched(bits: seq<Bit>, keyLength: nat): (s: string)
    requires |bits| > 0
    ensures |s| == keyLength && IsBitString(s)
  {
    var r := Repeat(BitString(bits), keyLength);
    assert |r| >= keyLength by {
      assert |BitString(bits)| * keyLength >= 1 * keyLength;
    }
    r[..keyLength]
  }

  /** Any repetition of the bit string that is long enough has the stretched string as its prefix. */
  lemma StretchedFromAnyRepetition(bits: seq<Bit>, copies: nat, keyLength: nat)
    requires |bits| > 0 && keyLength <= |bits| * copies
    ensures keyLength <= |Repeat(BitString(bits), copies)|
    ensures Repeat(BitString(bits), copies)[..keyLength] == Stretched(bits, keyLength)
  {
    var b := BitString(bits);
    if copies <= keyLength {
      RepeatPrefix(b, copies, keyLength, keyLength);
    } else {
      assert |b| * keyLength >= 1 * keyLength;
      RepeatPrefix(b, keyLength, copies, keyLength);
    }
  }

  lemma {:induction false} RepeatPeriodic(s: string, times: nat, i: nat)
    requires i + |s| < |s| * times
    ensures Repeat(s, times)[i + |s|] == Repeat(s, times)[i]
  {
    var rest := Repeat(s, times - 1);
    assert Repeat(s, times)[i + |s|] == rest[i];
    RepeatPrefix(s, times - 1, times, i + 1);
    assert Repeat(s, times - 1)[..i + 1][i] == Repeat(s, times)[..i + 1][i];
  }

  /**
   * The stretched string starts with the input's own bit string and repeats
   * it with period |bits|: when the input is long enough it is simply
   * truncated.
   */
  lemma StretchedShape(bits: seq<Bit>, keyLength: nat)
    requires |bits| > 0
    ensures var s := Stretched(bits, keyLength);
            && s[..Min(keyLength, |bits|)] == BitString(bits)[..Min(keyLength, |bits|)]
            && forall i :: |bits| <= i < keyLength ==> s[i] == s[i - |bits|]
  {
    var b := BitString(bits);
    var r := Repeat(b, keyLength);
    assert |b| * keyLength >= 1 * keyLength;
    if keyLength > 0 {
      assert r == b + Repeat(b, keyLength - 1);
    }
    forall i | |bits| <= i < keyLength
      ensures Stretched(bits, keyLength)[i] == Stretched(bits, keyLength)[i - |bits|]
    {
      RepeatPeriodic(b, keyLength, i - |bits|);
    }
  }

  function Pow2(k: nat): (p: nat)
    ensures p >= 1
  {
    if k == 0 then 1 else 2 * Pow2(k - 1)
  }

  lemma {:induction false} Pow2Add(a: nat, b: nat)
    ensures Pow2(a + b) == Pow2(a) * Pow2(b)
  {
    if b > 0 {
      Pow2Add(a, b - 1);
      assert Pow2(a + b) == 2 * Pow2(a + b - 1);
    }
  }

  lemma {:induction false} Pow2Monotone(a: nat, b: nat)
    requires a <= b
    ensures Pow2(a) <= Pow2(b)
  {
    if a < b {
      Pow2Monotone(a, b - 1);
    }
  }

  /** int(s, 2) for a non-empty string of '0' and '1'; the empty string is refused by `Encode`'s callers. */
  function BinaryValue(s: string): (v: nat)
    requires IsBitString(s)
    ensures v < Pow2(|s|)
  {
    if s == [] then 0
    else 2 * BinaryValue(s[..|s| - 1]) + (if s[|s| - 1] == '1' then 1 else 0)
  }

  /** Big-endian bytes back to a number: the inverse of `ToBytes`. */
  function FromBytes(bytes: seq<Byte>): nat {
    if bytes == [] then 0 else 256 * FromBytes(bytes[..|bytes| - 1]) + bytes[|bytes| - 1]
  }

  /** value.to_bytes(count, "big"), for a value that fits in `count` bytes. */
  function ToBytes(value: nat, count: nat): (bytes: seq<Byte>)
    requires value < Pow2(8 * count)
    ensures |bytes| == count
    ensures FromBytes(bytes) == value
  {
    if count == 0 then []
    else
      Pow2Add(8, 8 * (count - 1));
      var init := ToBytes(value / 256, count - 1);
      assert (init + [value % 256])[..count - 1] == init;
      init + [value % 256]
  }

  /**
   * int(bit_string, 2).to_bytes((len(bit_string) + 7) // 8, "big"):
   * the number always fits, so the conversion never overflows.
   */
  function Encode(s: string): (bytes: seq<Byte>)
    requires IsBitString(s)
    ensures |bytes| == (|s| + 7) / 8
    ensures FromBytes(bytes) == BinaryValue(s)
  {
    Pow2Monotone(|s|, 8 * ((|s| + 7) / 8));
    ToBytes(BinaryValue(s), (|s| + 7) / 8)
  }

  lemma {:induction false} BinaryValueInjective(s: string, t: string)
    requires IsBitString(s) && IsBitString(t) && |s| == |t|
    requires BinaryValue(s) == BinaryValue(t)
    ensures s == t
  {
    if s != [] {
      var n := |s| - 1;
      assert s[n] == t[n];
      BinaryValueInjective(s[..n], t[..n]);
      assert s == s[..n] + [s[n]];
      assert t == t[..n] + [t[n]];
    }
  }

  /** Bit strings of one length are encoded to different bytes: the hash input loses nothing. */
  lemma EncodeInjective(s: string, t: string)
    requires IsBitString(s) && IsBitString(t) && |s| == |t|
    requires Encode(s) == Encode(t)
    ensures s == t
  {
    BinaryValueInjective(s, t);
  }

  /**
   * What privacy_amplification returns: the digest of the encoded stretched
   * string, or None where int('', 2) raises ValueError (key length 0).
   */
  function Amplified(bits: seq<Bit>, keyLength: nat, digest: seq<Byte> -> string): (r: Option<string>)
    requires |bits| > 0
    ensures r == None <==> keyLength == 0
    ensures r.Some? && keyLength <= |bits| ==> r.value == digest(Encode(BitString(bits)[..keyLength]))
  {
    StretchedShape(bits, keyLength);
    assert keyLength <= |bits| ==> Stretched(bits, keyLength) == Stretched(bits, keyLength)[..keyLength];
    if keyLength == 0 then None else Some(digest(Encode(Stretched(bits, keyLength))))
  }

  // ---------------------------------------------------------------------
  // The guard on the remaining material
  // ---------------------------------------------------------------------

  /** The guard of run_protocol as written: fewer than key_length // 4 bits remain. */
  predicate InsufficientAsWritten(remaining: nat, keyLength: nat): (r: bool)
    ensures r ==> keyLength >= 4 && remaining < keyLength
  {
    remaining < keyLength / 4
  }

  /**
   * With a key length below 4 the guard as written lets an empty remainder
   * through: sifting keeps nothing when no basis agrees, nothing is tested,
   * nothing is detected, and privacy_amplification then doubles "" forever.
   */
  lemma AsWrittenGuardAdmitsEmptyMaterial()
    ensures var aliceBases: seq<Bit> := [0, 0, 0, 0];
            var bobBases: seq<Bit> := [1, 1, 1, 1];
            && MatchingBases(aliceBases, bobBases, 1 * 4) == []
            && SampleSize(0) == 0
            && !EavesdroppingDetected([], [], [])
            && !InsufficientAsWritten(|WithoutTested([], [])|, 1)
            && forall rounds: nat :: |Doubled("", rounds)| < 1
  {
    var aliceBases: seq<Bit> := [0, 0, 0, 0];
    var bobBases: seq<Bit> := [1, 1, 1, 1];
    NoAgreementKeepsNothing(aliceBases, bobBases, 4);
    forall rounds: nat ensures |Doubled("", rounds)| < 1 {
      DoublingEmptyStaysEmpty(rounds);
    }
  }

  lemma NoAgreementKeepsNothing(aliceBases: seq<Bit>, bobBases: seq<Bit>, n: nat)
    requires n <= |aliceBases| && n <= |bobBases|
    requires forall i :: 0 <= i < n ==> aliceBases[i] != bobBases[i]
    ensures MatchingBases(aliceBases, bobBases, n) == []
  {
  }

  /**
   * The guard with the empty remainder closed: the material is insufficient
   * when empty too, and whenever the guard as written says so.
   */
  predicate InsufficientMaterial(remaining: nat, keyLength: nat): (r: bool)
    ensures remaining == 0 ==> r
    ensures InsufficientAsWritten(remaining, keyLength) ==> r
  {
    remaining < keyLength / 4 || remaining == 0
  }

  /** The corrected guard only admits material that privacy amplification can stretch. */
  lemma GuardAdmitsOnlyStretchableMaterial(remaining: nat, keyLength: nat)
    requires remaining <= 4 * keyLength
    ensures !InsufficientMaterial(remaining, keyLength) ==> remaining > 0 && keyLength > 0
    ensures keyLength >= 4 ==> (InsufficientMaterial(remaining, keyLength) <==> InsufficientAsWritten(remaining, keyLength))
  {
  }

  // ---------------------------------------------------------------------
  // One protocol run
  // ---------------------------------------------------------------------

  /** The raw material of one run: n_bits = key_length * 4 symbols on each side. */
  ghost predicate RawMaterial(keyLength: nat, aliceBits: seq<Bit>, aliceBases: seq<Bit>, bobBases: seq<Bit>, bobResults: seq<Bit>)
  {
    && |aliceBits| == keyLength * 4 && |aliceBases| == keyLength * 4
    && |bobBases| == keyLength * 4 && |bobResults| == keyLength * 4
  }

  /** The key and the detection flag that run_protocol returns, "" standing for no key. */
  function ProtocolOutcome(keyLength: nat, aliceBits: seq<Bit>, aliceBases: seq<Bit>, bobBases: seq<Bit>,
                           bobResults: seq<Bit>, testIndices: seq<nat>, digest: seq<Byte> -> string): (r: (string, bool))
    requires RawMaterial(keyLength, aliceBits, aliceBases, bobBases, bobResults)
    requires IsSample(testIndices, |MatchingBases(aliceBases, bobBases, keyLength * 4)|)
    ensures r.1 ==> r.0 == ""
    ensures !r.1 ==> keyLength > 0
  {
    var kept := MatchingBases(aliceBases, bobBases, keyLength * 4);
    var aliceSifted, bobSifted := Select(aliceBits, kept), Select(bobResults, kept);
    if EavesdroppingDetected(aliceSifted, bobSifted, testIndices) then ("", true)
    else
      var remaining := WithoutTested(aliceSifted, testIndices);
      if InsufficientMaterial(|remaining|, keyLength) then ("", true)
      else
        GuardAdmitsOnlyStretchableMaterial(|remaining|, keyLength);
        (Amplified(remaining, keyLength, digest).value, false)
  }

  /**
   * A run reports detection exactly when it returns no key, and a key is
   * always one digest long.
   */
  lemma KeyAbsentExactlyWhenDetected(keyLength: nat, aliceBits: seq<Bit>, aliceBases: seq<Bit>, bobBases: seq<Bit>,
                                     bobResults: seq<Bit>, testIndices: seq<nat>, digest: seq<Byte> -> string)
    requires RawMaterial(keyLength, aliceBits, aliceBases, bobBases, bobResults)
    requires IsSample(testIndices, |MatchingBases(aliceBases, bobBases, keyLength * 4)|)
    requires forall bytes :: |digest(bytes)| == 64
    ensures var (key, detected) := ProtocolOutcome(keyLength, aliceBits, aliceBases, bobBases, bobResults, testIndices, digest);
            (key == "" <==> detected) && (!detected ==> |key| == 64)
  {
  }

  /**
   * Without interception the sifted lists agree, so a run can only fail for
   * lack of material; otherwise it yields the digest of the stretched
   * remainder, which holds |sifted| - SampleSize(|sifted|) bits.
   */
  lemma {:induction false} HonestChannelFailsOnlyForLackOfMaterial(
    keyLength: nat, aliceBits: seq<Bit>, aliceBases: seq<Bit>, bobBases: seq<Bit>,
    bobResults: seq<Bit>, intercepted: seq<bool>, testIndices: seq<nat>, digest: seq<Byte> -> string)
    requires RawMaterial(keyLength, aliceBits, aliceBases, bobBases, bobResults)
    requires FaithfulMeasurement(aliceBits, aliceBases, bobBases, bobResults, intercepted)
    requires forall i :: 0 <= i < |intercepted| ==> !intercepted[i]
    requires IsSample(testIndices, |MatchingBases(aliceBases, bobBases, keyLength * 4)|)
    ensures var kept := MatchingBases(aliceBases, bobBases, keyLength * 4);
            var remaining := WithoutTested(Select(aliceBits, kept), testIndices);
            && |remaining| == |kept| - SampleSize(|kept|)
            && ProtocolOutcome(keyLength, aliceBits, aliceBases, bobBases, bobResults, testIndices, digest)
               == if InsufficientMaterial(|remaining|, keyLength) then ("", true)
                  else (digest(Encode(Stretched(remaining, keyLength))), false)
  {
    var kept := MatchingBases(aliceBases, bobBases, keyLength * 4);
    var aliceSifted, bobSifted := Select(aliceBits, kept), Select(bobResults, kept);
    assert aliceSifted == bobSifted by {
      forall j | 0 <= j < |kept| ensures aliceSifted[j] == bobSifted[j] {
        assert aliceBases[kept[j]] == bobBases[kept[j]] && !intercepted[kept[j]];
      }
    }
    AgreementIsNeverDetected(aliceSifted, testIndices);
    WithoutTestedLength(aliceSifted, testIndices);
  }

  /**
   * generate_session_key on an honest channel: once at least 9 of the 128
   * bases agree, the 8 bits that key_length // 4 asks for survive the
   * sample, and a key is issued without a detection flag.
   */
  lemma {:induction false} HonestChannelIssuesSessionKey(
    aliceBits: seq<Bit>, aliceBases: seq<Bit>, bobBases: seq<Bit>,
    bobResults: seq<Bit>, intercepted: seq<bool>, testIndices: seq<nat>, digest: seq<Byte> -> string)
    requires RawMaterial(32, aliceBits, aliceBases, bobBases, bobResults)
    requires FaithfulMeasurement(aliceBits, aliceBases, bobBases, bobResults, intercepted)
    requires forall i :: 0 <= i < |intercepted| ==> !intercepted[i]
    requires IsSample(testIndices, |MatchingBases(aliceBases, bobBases, 32 * 4)|)
    requires |MatchingBases(aliceBases, bobBases, 32 * 4)| >= 9
    requires forall bytes :: digest(bytes) != ""
    ensures var (key, detected) := ProtocolOutcome(32, aliceBits, aliceBases, bobBases, bobResults, testIndices, digest);
            var kept := MatchingBases(aliceBases, bobBases, 32 * 4);
            && !detected
            && key == digest(Encode(Stretched(WithoutTested(Select(aliceBits, kept), testIndices), 32)))
            && SessionKeyResult(key, detected) == (Some(key), false)
  {
    HonestChannelFailsOnlyForLackOfMaterial(32, aliceBits, aliceBases, bobBases, bobResults, intercepted, testIndices, digest);
  }

  /** A Python list of bits that a callee may change in place. */
  class BitList {
    var items: seq<Bit>

    constructor (items: seq<Bit>)
      ensures this.items == items
    {
      this.items := items;
    }
  }

  class Bb84Simulator {
    const keyLength: nat
    var aliceBits: seq<Bit>
    var aliceBases: seq<Bit>
    var bobBases: seq<Bit>
    var bobResults: seq<Bit>
    var sharedKey: string
    var eavesdropperDetected: bool

    constructor (keyLength: nat := 32)
      ensures this.keyLength == keyLength
      ensures aliceBits == [] && aliceBases == [] && bobBases == [] && bobResults == []
      ensures sharedKey == "" && !eavesdropperDetected
    {
      this.keyLength := keyLength;
      aliceBits, aliceBases, bobBases, bobResults := [], [], [], [];
      sharedKey, eavesdropperDetected := "", false;
    }

    /**
     * Keeps, in order, Alice's bit and Bob's result at every position where
     * their bases agree; with a faithful channel the two results are equal.
     */
    method SiftKey(aliceBits: seq<Bit>, aliceBases: seq<Bit>, bobBases: seq<Bit>, bobResults: seq<Bit>)
      returns (aliceSifted: seq<Bit>, bobSifted: seq<Bit>)
      ensures var n := SiftWindow(aliceBits, aliceBases, bobBases, bobResults);
              var kept := MatchingBases(aliceBases, bobBases, n);
              && aliceSifted == Select(aliceBits, kept)
              && bobSifted == Select(bobResults, kept)
      ensures |aliceSifted| == |bobSifted|
      ensures (forall i :: 0 <= i < SiftWindow(aliceBits, aliceBases, bobBases, bobResults) && aliceBases[i] == bobBases[i]
                 ==> bobResults[i] == aliceBits[i])
              ==> aliceSifted == bobSifted
    {
      var n := SiftWindow(aliceBits, aliceBases, bobBases, bobResults);
      aliceSifted, bobSifted := [], [];
      var i := 0;
      while i < n
        invariant 0 <= i <= n
        invariant aliceSifted == Select(aliceBits, MatchingBases(aliceBases, bobBases, i))
        invariant bobSifted == Select(bobResults, MatchingBases(aliceBases, bobBases, i))
      {
        if aliceBases[i] == bobBases[i] {
          aliceSifted := aliceSifted + [aliceBits[i]];
          bobSifted := bobSifted + [bobResults[i]];
        }
        i := i + 1;
      }
    }

    /**
     * Estimates the error rate on the sample `testIndices` (the result of
     * random.sample). On detection both lists are left as they were;
     * otherwise each is replaced in place by its untested bits.
     */
    method DetectEavesdropping(aliceSifted: BitList, bobSifted: BitList, testIndices: seq<nat>) returns (detected: bool)
      requires |aliceSifted.items| == |bobSifted.items| ==> IsSample(testIndices, |aliceSifted.items|)
      modifies aliceSifted, bobSifted
      ensures detected == EavesdroppingDetected(old(aliceSifted.items), old(bobSifted.items), testIndices)
      ensures detected ==> aliceSifted.items == old(aliceSifted.items) && bobSifted.items == old(bobSifted.items)
      ensures !detected ==> && aliceSifted.items == WithoutTested(old(aliceSifted.items), testIndices)
                            && bobSifted.items == WithoutTested(old(bobSifted.items), testIndices)
    {
      if |aliceSifted.items| != |bobSifted.items| {
        return true;
      }
      var errors := 0;
      var j := 0;
      while j < |testIndices|
        invariant 0 <= j <= |testIndices|
        invariant errors == Mismatches(aliceSifted.items, bobSifted.items, testIndices[..j])
      {
        var i := testIndices[j];
        assert testIndices[..j + 1][..j] == testIndices[..j];
        if aliceSifted.items[i] != bobSifted.items[i] {
          errors := errors + 1;
        }
        j := j + 1;
      }
      assert testIndices[..j] == testIndices;
      var aliceFinal := WithoutTested(aliceSifted.items, testIndices);
      var bobFinal := WithoutTested(bobSifted.items, testIndices);
      if ExceedsThreshold(errors, |testIndices|) {
        return true;
      }
      aliceSifted.items := [];
      aliceSifted.items := aliceSifted.items + aliceFinal;
      bobSifted.items := [];
      bobSifted.items := bobSifted.items + bobFinal;
      return false;
    }

    /**
     * Doubles the bit string of `bits` until it holds `keyLength`
     * characters, keeps that prefix, encodes it and hashes it with `digest`.
     * The doubling only ends for non-empty input.
     */
    method PrivacyAmplification(bits: seq<Bit>, digest: seq<Byte> -> string) returns (key: Option<string>)
      requires |bits| > 0
      ensures key == Amplified(bits, keyLength, digest)
    {
      var bitString := BitString(bits);
      ghost var copies := 1;
      assert bitString == Repeat(bitString, 1);
      while |bitString| < keyLength
        invariant copies >= 1 && bitString == Repeat(BitString(bits), copies)
        decreases keyLength - |bitString|
      {
        RepeatAdd(BitString(bits), copies, copies);
        bitString := bitString + bitString;
        copies := copies + copies;
      }
      StretchedFromAnyRepetition(bits, copies, keyLength);
      bitString := bitString[..keyLength];
      if bitString == "" {
        // int("", 2) raises ValueError
        return None;
      }
      var byteData := Encode(bitString);
      return Some(digest(byteData));
    }

    /**
     * Steps 5 to 7 of run_protocol on the drawn material: sifting, the
     * eavesdropping test (whose verdict is `found`) and, when both it and
     * the material guard pass, privacy amplification.
     */
    method PostProcess(aliceBits: seq<Bit>, aliceBases: seq<Bit>, bobBases: seq<Bit>, bobResults: seq<Bit>,
                       testIndices: seq<nat>, digest: seq<Byte> -> string)
      returns (key: string, detected: bool, found: bool)
      requires RawMaterial(keyLength, aliceBits, aliceBases, bobBases, bobResults)
      requires IsSample(testIndices, |MatchingBases(aliceBases, bobBases, keyLength * 4)|)
      ensures (key, detected) == ProtocolOutcome(keyLength, aliceBits, aliceBases, bobBases, bobResults, testIndices, digest)
      ensures var kept := MatchingBases(aliceBases, bobBases, keyLength * 4);
              found == EavesdroppingDetected(Select(aliceBits, kept), Select(bobResults, kept), testIndices)
    {
      ghost var kept := MatchingBases(aliceBases, bobBases, keyLength * 4);
      var alice, bob := SiftKey(aliceBits, aliceBases, bobBases, bobResults);
      assert alice == Select(aliceBits, kept) && bob == Select(bobResults, kept);
      var aliceSifted := new BitList(alice);
      var bobSifted := new BitList(bob);
      found := DetectEavesdropping(aliceSifted, bobSifted, testIndices);
      if found {
        return "", true, found;
      }
      if InsufficientMaterial(|aliceSifted.items|, keyLength) {
        return "", true, found;
      }
      GuardAdmitsOnlyStretchableMaterial(|aliceSifted.items|, keyLength);
      var amplified := PrivacyAmplification(aliceSifted.items, digest);
      return amplified.value, false, found;
    }

    /**
     * One run over n_bits = keyLength * 4 symbols. The random bits and
     * bases, Bob's measurement results and the test sample are the
     * parameters; the fields record the raw material and the outcome.
     */
    method RunProtocol(aliceBits: seq<Bit>, aliceBases: seq<Bit>, bobBases: seq<Bit>, bobResults: seq<Bit>,
                       testIndices: seq<nat>, digest: seq<Byte> -> string)
      returns (key: string, detected: bool)
      requires RawMaterial(keyLength, aliceBits, aliceBases, bobBases, bobResults)
      requires IsSample(testIndices, |MatchingBases(aliceBases, bobBases, keyLength * 4)|)
      modifies this
      ensures (key, detected) == ProtocolOutcome(keyLength, aliceBits, aliceBases, bobBases, bobResults, testIndices, digest)
      ensures this.aliceBits == aliceBits && this.aliceBases == aliceBases
      ensures this.bobBases == bobBases && this.bobResults == bobResults
      ensures var kept := MatchingBases(aliceBases, bobBases, keyLength * 4);
              eavesdropperDetected == EavesdroppingDetected(Select(aliceBits, kept), Select(bobResults, kept), testIndices)
      ensures sharedKey == if detected then old(sharedKey) else key
    {
      this.aliceBits, this.aliceBases := aliceBits, aliceBases;
      this.bobBases, this.bobResults := bobBases, bobResults;
      var found;
      key, detected, found := PostProcess(aliceBits, aliceBases, bobBases, bobResults, testIndices, digest);
      eavesdropperDetected := found;
      if !detected {
        sharedKey := key;
      }
    }
  }

  /** The key generate_session_key hands out: None together with the flag on every failure. */
  function SessionKeyResult(key: string, detected: bool): (r: (Option<string>, bool))
    ensures r.0 == None <==> r.1
    ensures r.0 != None ==> r.0 == Some(key) && key != ""
  {
    if detected || key == "" then (None, true) else (Some(key), false)
  }

  /**
   * Runs the protocol with a key length of 32 and maps any failure to
   * (None, true). The channel parameters stand for what the simulated
   * channel produced, with or without the eavesdropper.
   */
  method GenerateSessionKey(aliceBits: seq<Bit>, aliceBases: seq<Bit>, bobBases: seq<Bit>, bobResults: seq<Bit>,
                            testIndices: seq<nat>, digest: seq<Byte> -> string)
    returns (key: Option<string>, eavesdropperDetected: bool)
    requires RawMaterial(32, aliceBits, aliceBases, bobBases, bobResults)
    requires IsSample(testIndices, |MatchingBases(aliceBases, bobBases, 32 * 4)|)
    ensures key == None <==> eavesdropperDetected
    ensures var (k, d) := ProtocolOutcome(32, aliceBits, aliceBases, bobBases, bobResults, testIndices, digest);
            (key, eavesdropperDetected) == SessionKeyResult(k, d)
  {
    var bb84 := new Bb84Simulator(32);
    var k, d := bb84.RunProtocol(aliceBits, aliceBases, bobBases, bobResults, testIndices, digest);
    if d || k == "" {
      return None, true;
    }
    return Some(k), false;
  }
}
