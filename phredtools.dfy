/** PhredTools.py: the same `Convert` class, whose lookups return a message
    string instead of ending the process, and the read trimmer `EndTrim`,
    whose crawl has no upper bound and whose global trim counts failing
    bases against a fixed allowance. */
module PhredTools {
  import opened Outcomes
  import opened Slices
  import opened Phred
  import opened QualityTrim

  /** The ways the trimmer ends the process. */
  datatype Exit =
    | QScoreOutOfRange // the trimmer built with a score outside 0..93
    | CrawlNegative    // a negative crawl
    | BadBaseCount     // a negative allowance of failing bases
    | BadMinLength     // a negative minimum length

  /** What `Convert` returns for a character that is not Phred+64 (written
      in two parts so that its eighth character, a space, is at hand). */
  const FormatMessage: string := "Invalid " + "Format. Are you sure you are trying to convert between the right formats?"

  /** What `PhredToASCII` returns for a score outside the table. */
  const ScoreMessage: string := "Cannot retrieve ASCII character. Valid integers range from 0 to 93!"

  /** The Sanger character of a score, as a one-character string, or the
      message for a score that is not a key of the table. */
  function PhredToASCII(score: int): (r: string)
    ensures |r| == 1 <==> IsScore(score)
    ensures IsScore(score) ==> SangerScore(r[0]) == score && r[0] as int == score + 33
    ensures !IsScore(score) ==> r == ScoreMessage
  {
    if IsScore(score) then [Phred33(score)] else ScoreMessage
  }

  /** The conversion loop; the first character that is not a key returns the
      message instead of a partial conversion. No converted line equals the
      message, since the message holds a space and converted characters lie
      in '!'..'_'. */
  method Convert(line: string) returns (r: string)
    ensures IsIlluminaLine(line) ==> |r| == |line|
    ensures IsIlluminaLine(line) ==> forall k :: 0 <= k < |line| ==>
              r[k] as int == line[k] as int - 31 && SangerScore(r[k]) == Phred64(line[k])
    ensures r == FormatMessage <==> !IsIlluminaLine(line)
  {
    var converted := [];
    for k := 0 to |line|
      invariant |converted| == k
      invariant forall j :: 0 <= j < k ==> IsIllumina(line[j]) && converted[j] == ToSanger(line[j])
    {
      if !IsIllumina(line[k]) {
        return FormatMessage;
      }
      var key := Phred64(line[k]);
      converted := converted + [Phred33(key)];
    }
    if |converted| == |FormatMessage| {
      assert converted[7] == ToSanger(line[7]);
    }
    r := converted;
  }

  /** The read after a global trim with an allowance of `numBases` failing
      bases: clipped at the first failing base once that many fail. */
  function CountTrim(r: Read, t: char, numBases: nat): (res: Read)
    ensures res.sequence <= r.sequence && res.quality <= r.quality
    ensures FailCount(r.quality, t) < numBases ==> res == r
    ensures numBases <= FailCount(r.quality, t) ==> forall k :: 0 <= k < |res.quality| ==> Passes(res.quality[k], t)
  {
    if FailCount(r.quality, t) >= numBases then ClipAtFirstFailure(r, t) else r
  }

  /** The global trim changes the read exactly when some base fails and at
      least `numBases` do; with no failing base it is unchanged even for an
      allowance of 0. What is left then passes throughout. */
  lemma CountTrimChanges(r: Read, t: char, numBases: nat)
    ensures CountTrim(r, t, numBases) != r <==> 0 < FailCount(r.quality, t) && numBases <= FailCount(r.quality, t)
    ensures FailCount(r.quality, t) == 0 ==> CountTrim(r, t, numBases) == r
    ensures numBases <= FailCount(r.quality, t) ==>
              forall k :: 0 <= k < |CountTrim(r, t, numBases).quality| ==> Passes(CountTrim(r, t, numBases).quality[k], t)
  {
    ClipAtFirstFailureKeeps(r, t);
  }

  /** A second global trim with the same allowance changes nothing. */
  lemma CountTrimIdempotent(r: Read, t: char, numBases: nat)
    ensures CountTrim(CountTrim(r, t, numBases), t, numBases) == CountTrim(r, t, numBases)
  {
    ClipAtFirstFailureKeeps(r, t);
    ClipAtFirstFailureIdempotent(r, t);
    var res := CountTrim(r, t, numBases);
    if res != r {
      assert FailCount(res.quality, t) == 0;
    }
  }

  /** The trimmer: a read that MinLength or Retrieve may turn absent, and
      the threshold character made from the minimum score. */
  class EndTrim {
    var sequence: Option<string>
    var quality: Option<string>
    const threshold: char

    /** The two fields are absent together, and the threshold is a Sanger
        character. */
    ghost predicate Valid()
      reads this
    {
      && (sequence.Some? <==> quality.Some?)
      && '!' <= threshold <= '~'
    }

    /** The read held, when present. */
    ghost function Current(): Read
      reads this
      requires sequence.Some? && quality.Some?
    {
      Read(sequence.value, quality.value)
    }

    /** The assignments of `__init__` once the score is known to be a key
        of the table. */
    constructor (sequence: string, quality: string, qScore: int)
      requires IsScore(qScore)
      ensures this.sequence == Some(sequence) && this.quality == Some(quality)
      ensures this.threshold == Phred33(qScore)
      ensures Valid()
    {
      this.sequence := Some(sequence);
      this.quality := Some(quality);
      this.threshold := Phred33(qScore);
    }

    /** `EndTrim(Sequence, Quality, QScore)`: fails unless the score is in
        0..93; the threshold is then the score's Sanger character. */
    static method Create(sequence: string, quality: string, qScore: int) returns (r: Result<EndTrim, Exit>)
      ensures r.Ok? <==> IsScore(qScore)
      ensures r.Ok? ==> fresh(r.value) && r.value.Valid()
      ensures r.Ok? ==> r.value.sequence == Some(sequence) && r.value.quality == Some(quality)
      ensures r.Ok? ==> PhredToASCII(qScore) == [r.value.threshold]
      ensures r.Err? ==> r.error == QScoreOutOfRange
    {
      if !IsScore(qScore) {
        return Err(QScoreOutOfRange);
      }
      var trim := new EndTrim(sequence, quality, qScore);
      r := Ok(trim);
    }

    /** Any crawl of at least 0 is accepted; the 5' trim then replaces both
        fields as `QualityTrim.FivePrime` says. */
    method FivePrime(crawl: int) returns (o: Outcome<Exit>)
      requires Valid()
      requires crawl >= 0 ==> quality.Some?
      requires crawl == 0 ==> |quality.value| > 0
      modifies this
      ensures Valid()
      ensures o.Pass? <==> crawl >= 0
      ensures o.Pass? ==> sequence.Some? && quality.Some?
      ensures o.Pass? ==> Current() == QualityTrim.FivePrime(old(Current()), threshold, crawl)
      ensures o.Fail? ==> unchanged(this) && o.error == CrawlNegative
    {
      if crawl < 0 {
        return Fail(CrawlNegative);
      }
      var r := TrimFivePrime(Read(sequence.value, quality.value), threshold, crawl);
      sequence, quality := Some(r.sequence), Some(r.quality);
      o := Pass;
    }

    /** Any crawl of at least 0 is accepted; the 3' trim then replaces both
        fields as `QualityTrim.ThreePrime` says. */
    method ThreePrime(crawl: int) returns (o: Outcome<Exit>)
      requires Valid()
      requires crawl >= 0 ==> quality.Some?
      requires crawl == 0 ==> |quality.value| > 0
      modifies this
      ensures Valid()
      ensures o.Pass? <==> crawl >= 0
      ensures o.Pass? ==> sequence.Some? && quality.Some?
      ensures o.Pass? ==> Current() == QualityTrim.ThreePrime(old(Current()), threshold, crawl)
      ensures o.Fail? ==> unchanged(this) && o.error == CrawlNegative
    {
      if crawl < 0 {
        return Fail(CrawlNegative);
      }
      var r := TrimThreePrime(Read(sequence.value, quality.value), threshold, crawl);
      sequence, quality := Some(r.sequence), Some(r.quality);
      o := Pass;
    }

    /** Counts the failing bases and clips at the first one when at least
        `numBases` fail; a negative allowance is refused. */
    method GlobalTrim(numBases: int) returns (o: Outcome<Exit>)
      requires Valid()
      requires numBases >= 0 ==> quality.Some?
      modifies this
      ensures Valid()
      ensures o.Pass? <==> numBases >= 0
      ensures o.Pass? ==> sequence.Some? && quality.Some?
      ensures o.Pass? ==> Current() == CountTrim(old(Current()), threshold, numBases)
      ensures o.Fail? ==> unchanged(this) && o.error == BadBaseCount
    {
      if numBases < 0 {
        return Fail(BadBaseCount);
      }
      var count, trim := CountFailures(quality.value, threshold);
      if count >= numBases {
        if trim.Some? {
          sequence, quality := Some(Take(sequence.value, trim.value)), Some(Take(quality.value, trim.value));
        }
      }
      o := Pass;
    }

    /** A read shorter than `length` becomes absent; a negative length is
        refused. */
    method MinLength(length: int) returns (o: Outcome<Exit>)
      requires Valid()
      requires length >= 0 ==> sequence.Some?
      modifies this
      ensures Valid()
      ensures o.Pass? <==> length >= 0
      ensures o.Pass? ==> (sequence.None? <==> |old(sequence.value)| < length)
      ensures o.Pass? ==> quality.None? || (sequence, quality) == (old(sequence), old(quality))
      ensures o.Pass? ==> sequence.None? || |sequence.value| >= length
      ensures o.Fail? ==> unchanged(this) && o.error == BadMinLength
    {
      if length < 0 {
        return Fail(BadMinLength);
      }
      if |sequence.value| < length {
        sequence, quality := None, None;
      }
      o := Pass;
    }

    /** Returns the read, first turning an empty sequence into an absent
        read. */
    method Retrieve() returns (s: Option<string>, q: Option<string>)
      requires Valid()
      modifies this
      ensures Valid()
      ensures (s, q) == Retrieved(old(sequence), old(quality))
      ensures (sequence, quality) == (s, q)
    {
      if sequence.Some? && |sequence.value| == 0 {
        sequence, quality := None, None;
      }
      s, q := sequence, quality;
    }
  }
}
