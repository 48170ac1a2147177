/** SeqTrim.py: the `Convert` class (quality re-encoding and score lookup)
    and the read trimmer `Trim`. Wherever the source ends the process with a
    message, the model returns an `Exit` value naming the failure. */
module SeqTrim {
  import opened Outcomes
  import opened Slices
  import opened Phred
  import opened QualityTrim

  /** The ways the source ends the process. */
  datatype Exit =
    | InvalidFormat     // a quality character that is not Phred+64
    | NoSuchScore       // a score outside 0..93 looked up
    | QScoreOutOfRange  // the trimmer built with a score outside 0..93
    | CrawlAboveLength  // a crawl longer than the quality line
    | CrawlOutOfRange   // a negative crawl
    | BadBaseAllowance  // a negative percentage for the global trim
    | ZeroDivision      // a percentage of 0 (the division in the global trim fails)
    | MinLengthNegative // a negative minimum length

  /** The Sanger character of a Phred score, or the failure for a score that
      is not a key of the table. */
  function PhredToASCII(score: int): (r: Result<char, Exit>)
    ensures r.Ok? <==> IsScore(score)
    ensures r.Ok? ==> SangerScore(r.value) == score && r.value as int == score + 33
    ensures r.Err? ==> r.error == NoSuchScore
  {
    if IsScore(score) then Ok(Phred33(score)) else Err(NoSuchScore)
  }

  /** The conversion loop: each character is looked up in the Phred+64
      table and its score in the Phred+33 table; the first character that is
      not a key stops the conversion with no partial output. */
  method Convert(line: string) returns (r: Result<string, Exit>)
    ensures r.Ok? <==> IsIlluminaLine(line)
    ensures r.Ok? ==> |r.value| == |line|
    ensures r.Ok? ==> forall k :: 0 <= k < |line| ==>
              r.value[k] as int == line[k] as int - 31 && SangerScore(r.value[k]) == Phred64(line[k])
    ensures r.Err? ==> r.error == InvalidFormat
  {
    var converted := [];
    for k := 0 to |line|
      invariant |converted| == k
      invariant forall j :: 0 <= j < k ==> IsIllumina(line[j]) && converted[j] == ToSanger(line[j])
    {
      if !IsIllumina(line[k]) {
        return Err(InvalidFormat);
      }
      var key := Phred64(line[k]);
      converted := converted + [Phred33(key)];
    }
    r := Ok(converted);
  }

  /** The global trim's test, with Python 2 integer division: clip when
      `count >= count / percentBases * 100`. */
  predicate PercentRule(count: nat, percentBases: nat): (holds: bool)
    requires percentBases > 0
    ensures count < percentBases ==> holds
  {
    count >= count / percentBases * 100
  }

  /** The read after a global trim that succeeded. */
  function PercentTrim(r: Read, t: char, percentBases: nat): (res: Read)
    requires percentBases > 0
    ensures res.sequence <= r.sequence && res.quality <= r.quality
    ensures res == r || forall k :: 0 <= k < |res.quality| ==> Passes(res.quality[k], t)
  {
    if PercentRule(FailCount(r.quality, t), percentBases) then ClipAtFirstFailure(r, t) else r
  }

  /** The test holds exactly when the remainder of `count` by the percentage
      is at least `(100 - percentBases)` times the quotient. */
  lemma PercentRuleIff(count: nat, percentBases: nat)
    requires percentBases > 0
    ensures PercentRule(count, percentBases) <==>
              count % percentBases >= (100 - percentBases) * (count / percentBases)
  {
    var a, b := count / percentBases, count % percentBases;
    assert count == percentBases * a + b;
    assert count / percentBases * 100 == percentBases * a + (100 - percentBases) * a;
  }

  /** With the default percentage 1 the test holds only when no base fails,
      so the global trim never changes the read. */
  lemma DefaultPercentKeepsRead(r: Read, t: char)
    ensures PercentRule(FailCount(r.quality, t), 1) <==> FailCount(r.quality, t) == 0
    ensures PercentTrim(r, t, 1) == r
  {
    ClipAtFirstFailureKeeps(r, t);
  }

  /** With fewer failing bases than the percentage, or with a percentage of
      100 or more, the test always holds. */
  lemma PercentRuleHolds(count: nat, percentBases: nat)
    requires percentBases > 0
    requires count < percentBases || percentBases >= 100
    ensures PercentRule(count, percentBases)
  {
    var a := count / percentBases;
    if count < percentBases {
      assert a == 0;
    } else {
      assert percentBases * a <= count;
      assert a * 100 <= a * percentBases;
    }
  }

  /** So in those cases the global trim clips the read at its first failing
      base. */
  lemma PercentTrimClips(r: Read, t: char, percentBases: nat)
    requires percentBases > 0
    requires FailCount(r.quality, t) < percentBases || percentBases >= 100
    ensures PercentTrim(r, t, percentBases) == ClipAtFirstFailure(r, t)
  {
    PercentRuleHolds(FailCount(r.quality, t), percentBases);
  }

  /** The trimmer: a read that MinLength or Retrieve may turn absent, and
      the threshold character made from the minimum score. */
  class Trim {
    var sequence: Option<string>
    var quality: Option<string>
    const threshold: char

    /** The two fields are absent together, and the threshold is a Sanger
        character. */
    ghost predicate Valid()
      reads this
    {
      && (sequence.Some? <==> quality.Some?)
      && '!' <= threshold <= '~'
    }

    /** The read held, when present. */
    ghost function Current(): Read
      reads this
      requires sequence.Some? && quality.Some?
    {
      Read(sequence.value, quality.value)
    }

    /** The assignments of `__init__` once the score is known to be a key
        of the table. */
    constructor (sequence: string, quality: string, qScore: int)
      requires IsScore(qScore)
      ensures this.sequence == Some(sequence) && this.quality == Some(quality)
      ensures this.threshold == Phred33(qScore)
      ensures Valid()
    {
      this.sequence := Some(sequence);
      this.quality := Some(quality);
      this.threshold := Phred33(qScore);
    }

    /** `Trim(Sequence, Quality, QScore)`: fails unless the score is in
        0..93; the threshold is then the score's Sanger character. */
    static method Create(sequence: string, quality: string, qScore: int) returns (r: Result<Trim, Exit>)
      ensures r.Ok? <==> IsScore(qScore)
      ensures r.Ok? ==> fresh(r.value) && r.value.Valid()
      ensures r.Ok? ==> r.value.sequence == Some(sequence) && r.value.quality == Some(quality)
      ensures r.Ok? ==> PhredToASCII(qScore) == Ok(r.value.threshold)
      ensures r.Err? ==> r.error == QScoreOutOfRange
    {
      if !IsScore(qScore) {
        return Err(QScoreOutOfRange);
      }
      var trim := new Trim(sequence, quality, qScore);
      r := Ok(trim);
    }

    /** The crawl must lie in 0..len(Quality); the 5' trim then replaces both
        fields as `QualityTrim.FivePrime` says. */
    method FivePrime(crawl: int) returns (o: Outcome<Exit>)
      requires Valid() && quality.Some?
      requires crawl == 0 ==> |quality.value| > 0
      modifies this
      ensures Valid() && sequence.Some? && quality.Some?
      ensures o.Pass? <==> 0 <= crawl <= |old(quality.value)|
      ensures o.Pass? ==> Current() == QualityTrim.FivePrime(old(Current()), threshold, crawl)
      ensures o.Fail? ==> unchanged(this)
      ensures o.Fail? ==> o.error == if crawl > |old(quality.value)| then CrawlAboveLength else CrawlOutOfRange
    {
      if crawl < 0 || crawl > |quality.value| {
        return Fail(if crawl > |quality.value| then CrawlAboveLength else CrawlOutOfRange);
      }
      var r := TrimFivePrime(Read(sequence.value, quality.value), threshold, crawl);
      sequence, quality := Some(r.sequence), Some(r.quality);
      o := Pass;
    }

    /** The crawl must lie in 0..len(Quality); the 3' trim then replaces both
        fields as `QualityTrim.ThreePrime` says. */
    method ThreePrime(crawl: int) returns (o: Outcome<Exit>)
      requires Valid() && quality.Some?
      requires crawl == 0 ==> |quality.value| > 0
      modifies this
      ensures Valid() && sequence.Some? && quality.Some?
      ensures o.Pass? <==> 0 <= crawl <= |old(quality.value)|
      ensures o.Pass? ==> Current() == QualityTrim.ThreePrime(old(Current()), threshold, crawl)
      ensures o.Fail? ==> unchanged(this)
      ensures o.Fail? ==> o.error == if crawl > |old(quality.value)| then CrawlAboveLength else CrawlOutOfRange
    {
      if crawl < 0 || crawl > |quality.value| {
        return Fail(if crawl > |quality.value| then CrawlAboveLength else CrawlOutOfRange);
      }
      var r := TrimThreePrime(Read(sequence.value, quality.value), threshold, crawl);
      sequence, quality := Some(r.sequence), Some(r.quality);
      o := Pass;
    }

    /** Counts the failing bases and clips at the first one when the
        percentage test holds; a negative percentage is refused and a
        percentage of 0 fails in the division. */
    method GlobalTrim(percentBases: int) returns (o: Outcome<Exit>)
      requires Valid()
      requires percentBases >= 0 ==> quality.Some?
      modifies this
      ensures Valid()
      ensures o.Pass? <==> percentBases > 0
      ensures o.Pass? ==> sequence.Some? && quality.Some?
      ensures o.Pass? ==> Current() == PercentTrim(old(Current()), threshold, percentBases)
      ensures o.Fail? ==> unchanged(this)
      ensures o.Fail? ==> o.error == if percentBases < 0 then BadBaseAllowance else ZeroDivision
    {
      if percentBases < 0 {
        return Fail(BadBaseAllowance);
      }
      var count, trim := CountFailures(quality.value, threshold);
      if percentBases == 0 {
        return Fail(ZeroDivision);
      }
      if count >= count / percentBases * 100 {
        if trim.Some? {
          sequence, quality := Some(Take(sequence.value, trim.value)), Some(Take(quality.value, trim.value));
        }
      }
      o := Pass;
    }

    /** A read shorter than `length` becomes absent; a negative length is
        refused. */
    method MinLength(length: int) returns (o: Outcome<Exit>)
      requires Valid()
      requires length >= 0 ==> sequence.Some?
      modifies this
      ensures Valid()
      ensures o.Pass? <==> length >= 0
      ensures o.Pass? ==> (sequence.None? <==> |old(sequence.value)| < length)
      ensures o.Pass? ==> quality.None? || (sequence, quality) == (old(sequence), old(quality))
      ensures o.Pass? ==> sequence.None? || |sequence.value| >= length
      ensures o.Fail? ==> unchanged(this) && o.error == MinLengthNegative
    {
      if length < 0 {
        return Fail(MinLengthNegative);
      }
      if |sequence.value| < length {
        sequence, quality := None, None;
      }
      o := Pass;
    }

    /** Returns the read, first turning an empty sequence into an absent
        read. */
    method Retrieve() returns (s: Option<string>, q: Option<string>)
      requires Valid()
      modifies this
      ensures Valid()
      ensures (s, q) == Retrieved(old(sequence), old(quality))
      ensures (sequence, quality) == (s, q)
    {
      if sequence.Some? && |sequence.value| == 0 {
        sequence, quality := None, None;
      }
      s, q := sequence, quality;
    }
  }
}
