/** The trimming logic the two read trimmers (`Trim` in SeqTrim.py and
    `EndTrim` in PhredTools.py) have in common, on plain values: a read is a
    sequence and a quality string, and each trim maps a read to a new read.
    The functions here are the reference definitions; the methods are the
    loops of the source, proved to compute them; the lemmas say what the
    trims keep and remove. */
module QualityTrim {
  import opened Outcomes
  import opened Slices
  import opened Phred

  /** A read: nucleotide sequence and per-base quality characters. */
  datatype Read = Read(sequence: string, quality: string)

  /** A base passes when its quality character is at least the threshold
      character (a comparison of character codes). */
  predicate Passes(c: char, threshold: char) { c >= threshold }

  /** With a threshold made from a Phred score, passing means having at
      least that score. */
  lemma PassesIffScoreAtLeast(c: char, score: int)
    requires IsScore(score)
    ensures Passes(c, Phred33(score)) <==> SangerScore(c) >= score
  {
  }

  // ---------------------------------------------------------------------
  // Searches over a quality string

  /** The lowest index in [lo, hi) whose base passes (`want`) or fails
      (`!want`). */
  function First(q: string, t: char, want: bool, lo: int, hi: int): (r: Option<nat>)
    requires 0 <= lo && hi <= |q|
    ensures r.Some? ==> lo <= r.value < hi && Passes(q[r.value], t) == want
    ensures r.Some? ==> forall k :: lo <= k < r.value ==> Passes(q[k], t) != want
    ensures r.None? <==> forall k :: lo <= k < hi ==> Passes(q[k], t) != want
    decreases hi - lo
  {
    if lo >= hi then None
    else if Passes(q[lo], t) == want then Some(lo)
    else First(q, t, want, lo + 1, hi)
  }

  /** The highest index in [lo, hi) whose base passes (`want`) or fails
      (`!want`). */
  function Last(q: string, t: char, want: bool, lo: int, hi: int): (r: Option<nat>)
    requires 0 <= lo && hi <= |q|
    ensures r.Some? ==> lo <= r.value < hi && Passes(q[r.value], t) == want
    ensures r.Some? ==> forall k :: r.value < k < hi ==> Passes(q[k], t) != want
    ensures r.None? <==> forall k :: lo <= k < hi ==> Passes(q[k], t) != want
    decreases hi - lo
  {
    if lo >= hi then None
    else if Passes(q[hi - 1], t) == want then Some(hi - 1)
    else Last(q, t, want, lo, hi - 1)
  }

  /** The number of bases that fail the threshold. */
  function FailCount(q: string, t: char): (n: nat)
    ensures n <= |q|
    ensures n == 0 <==> forall k :: 0 <= k < |q| ==> Passes(q[k], t)
    ensures n == |q| <==> forall k :: 0 <= k < |q| ==> !Passes(q[k], t)
  {
    if q == [] then 0
    else FailCount(q[..|q| - 1], t) + (if Passes(q[|q| - 1], t) then 0 else 1)
  }

  /** Searching the reversed string from the back is searching the string
      from the front. */
  lemma LastInReverse(q: string, t: char, want: bool, lo: int, hi: int)
    requires 0 <= lo && hi <= |q|
    ensures Last(Reverse(q), t, want, lo, hi).None? <==> First(q, t, want, |q| - hi, |q| - lo).None?
    ensures Last(Reverse(q), t, want, lo, hi).Some? ==>
              First(q, t, want, |q| - hi, |q| - lo).value == |q| - 1 - Last(Reverse(q), t, want, lo, hi).value
  {
    var l := Last(Reverse(q), t, want, lo, hi);
    var f := First(q, t, want, |q| - hi, |q| - lo);
    if l.Some? {
      ReverseAt(q, l.value);
    }
    if f.Some? {
      ReverseAt(q, |q| - 1 - f.value);
    }
  }

  /** Searching a slice `s[lo:hi]` is searching `s` between the bounds. */
  lemma LastInSlice(s: string, t: char, want: bool, lo: nat, hi: nat)
    ensures var l, l' := Last(Slice(s, lo, hi), t, want, 0, |Slice(s, lo, hi)|), Last(s, t, want, lo, Min(hi, |s|));
            && (l.None? <==> l'.None?)
            && (l.Some? ==> l'.value == lo + l.value)
  {
    var w := Slice(s, lo, hi);
    forall k | 0 <= k < |w|
      ensures w[k] == s[lo + k]
    {
      SliceAt(s, lo, hi, k);
    }
    var l, l' := Last(w, t, want, 0, |w|), Last(s, t, want, lo, Min(hi, |s|));
    if l.Some? {
      assert Passes(s[lo + l.value], t) == want;
    }
    if l'.Some? {
      assert Passes(w[l'.value - lo], t) == want;
    }
  }

  /** One past a found index, or a fallback when nothing was found. */
  function OnePast(found: Option<nat>, otherwise: int): int
  {
    if found.Some? then found.value + 1 else otherwise
  }

  /** The crawl loop both end trims share: it inspects the `crawl` bases
      of `q[start:start + crawl]` and returns one past the last failing one,
      or `otherwise` when none fails. */
  method Crawl(q: string, t: char, start: nat, crawl: nat, otherwise: int) returns (trim: int)
    requires crawl > 0
    ensures trim == OnePast(Last(q, t, false, start, Min(start + crawl, |q|)), otherwise)
  {
    var count := 0;
    trim := otherwise;
    var window := Slice(q, start, start + crawl);
    for n := 0 to |window|
      invariant count == n
      invariant trim == start + OnePast(Last(window, t, false, 0, n), otherwise - start)
    {
      count := count + 1;
      if window[n] < t {
        trim := start + count;
      } else if count == crawl {
        assert n + 1 == |window|;
        break;
      }
    }
    LastInSlice(q, t, false, start, start + crawl);
    assert trim == start + OnePast(Last(window, t, false, 0, |window|), otherwise - start);
  }

  // ---------------------------------------------------------------------
  // The 5' trim

  /** The start of the slice the 5' trim keeps. Crawl 0: the first passing
      base, or the last base if none passes. Crawl > 0: one past the last
      failing base among the `crawl` bases after the first passing one
      (counting from the read start if none passes), otherwise the first
      passing base itself (-1 if none passes and nothing was inspected). */
  function FivePrimeCut(q: string, t: char, crawl: nat): (cut: int)
    requires crawl == 0 ==> |q| > 0
    ensures cut <= |q|
    ensures crawl == 0 ==> cut < |q|
    ensures cut < 0 <==> crawl > 0 && q == []
  {
    var first := First(q, t, true, 0, |q|);
    if crawl == 0 then
      if first.Some? then first.value else |q| - 1
    else
      var start := OnePast(first, 0);
      OnePast(Last(q, t, false, start, Min(start + crawl, |q|)), start - 1)
  }

  /** The read after a 5' trim: both strings sliced from the same start. */
  function FivePrime(r: Read, t: char, crawl: nat): (res: Read)
    requires crawl == 0 ==> |r.quality| > 0
    ensures |res.quality| <= |r.quality| && |res.sequence| <= |r.sequence|
    ensures crawl == 0 ==> |res.quality| > 0
  {
    var cut := FivePrimeCut(r.quality, t, crawl);
    Read(Drop(r.sequence, cut), Drop(r.quality, cut))
  }

  /** The loops of `FivePrime` in both source files. */
  method TrimFivePrime(r: Read, t: char, crawl: nat) returns (r': Read)
    requires crawl == 0 ==> |r.quality| > 0
    ensures r' == FivePrime(r, t, crawl)
  {
    if crawl == 0 {
      r' := TrimToFirstPass(r, t);
    } else {
      r' := TrimFivePrimeCrawl(r, t, crawl);
    }
  }

  /** `FivePrime` with crawl 0: scan from the 5' end to the first passing
      base (stopping at the last base when none passes). */
  method TrimToFirstPass(r: Read, t: char) returns (r': Read)
    requires |r.quality| > 0
    ensures r' == FivePrime(r, t, 0)
  {
    var q := r.quality;
    var i := 0;
    for k := 0 to |q|
      invariant forall j :: 0 <= j < k ==> !Passes(q[j], t)
      invariant 0 < k ==> i == k - 1
    {
      i := k;
      if q[k] >= t {
        break;
      }
    }
    assert i == FivePrimeCut(q, t, 0);
    r' := Read(Drop(r.sequence, i), Drop(q, i));
  }

  /** `FivePrime` with crawl > 0: find the first passing base, then crawl
      over the next `crawl` bases for one that fails. */
  method TrimFivePrimeCrawl(r: Read, t: char, crawl: nat) returns (r': Read)
    requires crawl > 0
    ensures r' == FivePrime(r, t, crawl)
  {
    var q := r.quality;
    var start := 0;
    for k := 0 to |q|
      invariant forall j :: 0 <= j < k ==> !Passes(q[j], t)
      invariant start == 0
    {
      if q[k] >= t {
        start := k + 1;
        break;
      }
    }
    assert start == OnePast(First(q, t, true, 0, |q|), 0);
    var trim := Crawl(q, t, start, crawl, start - 1);
    assert trim == FivePrimeCut(q, t, crawl);
    r' := Read(Drop(r.sequence, trim), Drop(q, trim));
  }

  // ---------------------------------------------------------------------
  // The 3' trim

  /** With crawl 0 the 3' trim keeps `[:end]`: up to and including the last
      passing base, or only the first base if none passes. */
  function ThreePrimeEnd(q: string, t: char): (end: int)
    requires |q| > 0
    ensures 0 < end <= |q|
    ensures forall k :: end <= k < |q| ==> !Passes(q[k], t)
  {
    var last := Last(q, t, true, 0, |q|);
    if last.Some? then last.value + 1 else 1
  }

  /** With crawl > 0 the 3' trim works on the reversed strings: the number
      of leading characters it drops from them. The crawl window starts two
      places past the reversed position of the last passing base. */
  function ThreePrimeTrim(q: string, t: char, crawl: nat): (trim: int)
    ensures trim <= |q|
    ensures trim < 0 ==> |q| < 2
  {
    var start := ThreePrimeStart(q, t);
    OnePast(Last(Reverse(q), t, false, start, Min(start + crawl, |q|)), start - 2)
  }

  /** Where the 3' crawl window starts in the reversed quality string. */
  function ThreePrimeStart(q: string, t: char): (start: nat)
    ensures start <= |q| + 1
    ensures forall k :: |q| + 2 - start <= k < |q| ==> !Passes(q[k], t)
    ensures start < 2 ==> forall k :: 0 <= k < |q| ==> !Passes(q[k], t)
  {
    var last := Last(q, t, true, 0, |q|);
    if last.Some? then |q| - last.value + 1 else |q|
  }

  /** The read after a 3' trim. */
  function ThreePrime(r: Read, t: char, crawl: nat): (res: Read)
    requires crawl == 0 ==> |r.quality| > 0
    ensures |res.quality| <= |r.quality| && |res.sequence| <= |r.sequence|
    ensures crawl == 0 ==> |res.quality| > 0
  {
    if crawl == 0 then
      var end := ThreePrimeEnd(r.quality, t);
      Read(Take(r.sequence, end), Take(r.quality, end))
    else
      var trim := ThreePrimeTrim(r.quality, t, crawl);
      Read(Reverse(Drop(Reverse(r.sequence), trim)), Reverse(Drop(Reverse(r.quality), trim)))
  }

  /** The loops of `ThreePrime` in both source files. */
  method TrimThreePrime(r: Read, t: char, crawl: nat) returns (r': Read)
    requires crawl == 0 ==> |r.quality| > 0
    ensures r' == ThreePrime(r, t, crawl)
  {
    if crawl == 0 {
      r' := TrimToLastPass(r, t);
    } else {
      r' := TrimThreePrimeCrawl(r, t, crawl);
    }
  }

  /** `ThreePrime` with crawl 0: scan back from the 3' end to the last
      passing base (stopping at the first base when none passes). */
  method TrimToLastPass(r: Read, t: char) returns (r': Read)
    requires |r.quality| > 0
    ensures r' == ThreePrime(r, t, 0)
  {
    var q := r.quality;
    var i := 0;
    for k := |q| downto 0
      invariant forall j :: k <= j < |q| ==> !Passes(q[j], t)
      invariant k < |q| ==> i == k
    {
      i := k;
      if q[k] >= t {
        break;
      }
    }
    assert i + 1 == ThreePrimeEnd(q, t);
    r' := Read(Take(r.sequence, i + 1), Take(q, i + 1));
  }

  /** `ThreePrime` with crawl > 0: find the last passing base, then crawl
      over the reversed quality string. */
  method TrimThreePrimeCrawl(r: Read, t: char, crawl: nat) returns (r': Read)
    requires crawl > 0
    ensures r' == ThreePrime(r, t, crawl)
  {
    var q := r.quality;
    var start := |q|;
    for k := |q| downto 0
      invariant forall j :: k <= j < |q| ==> !Passes(q[j], t)
      invariant start == |q|
    {
      if q[k] >= t {
        start := |q| - k + 1;
        break;
      }
    }
    assert start == ThreePrimeStart(q, t);
    var revSeq := Reverse(r.sequence);
    var revQual := Reverse(q);
    var trim := Crawl(revQual, t, start, crawl, start - 2);
    assert trim == ThreePrimeTrim(q, t, crawl);
    r' := Read(Reverse(Drop(revSeq, trim)), Reverse(Drop(revQual, trim)));
  }

  // ---------------------------------------------------------------------
  // Clipping from the first failing base (the global trim's cut)

  /** Both strings cut before the first failing base; unchanged when no
      base fails (a slice `[:None]`). */
  function ClipAtFirstFailure(r: Read, t: char): (res: Read)
    ensures |res.quality| <= |r.quality| && |res.sequence| <= |r.sequence|
    ensures forall k :: 0 <= k < |res.quality| ==> Passes(res.quality[k], t)
  {
    var first := First(r.quality, t, false, 0, |r.quality|);
    if first.Some? then Read(Take(r.sequence, first.value), Take(r.quality, first.value)) else r
  }

  /** The counting loop of `GlobalTrim` in both source files: how many bases
      fail, and where the first failing one is. */
  method CountFailures(q: string, t: char) returns (count: nat, trim: Option<nat>)
    ensures count == FailCount(q, t)
    ensures trim == First(q, t, false, 0, |q|)
    ensures count == 0 <==> trim.None?
  {
    count := 0;
    trim := None;
    for i := 0 to |q|
      invariant count == FailCount(q[..i], t)
      invariant trim == First(q, t, false, 0, i)
    {
      assert q[..i + 1][..i] == q[..i];
      if q[i] < t {
        count := count + 1;
        if trim == None {
          trim := Some(i);
        }
      }
    }
    assert q[..|q|] == q;
  }

  // ---------------------------------------------------------------------
  // Retrieval

  /** The pair `Retrieve` returns, which is also the state it leaves: an
      empty sequence is turned into an absent read. */
  function Retrieved(s: Option<string>, q: Option<string>): (p: (Option<string>, Option<string>))
    ensures p.0.None? <==> s.None? || s == Some([])
    ensures s != Some([]) ==> p == (s, q)
    ensures s == Some([]) ==> p.1.None?
  {
    if s == Some([]) then (None, None) else (s, q)
  }

  /** Retrieving again changes nothing and returns the same pair. */
  lemma RetrieveIdempotent(s: Option<string>, q: Option<string>)
    requires s.None? ==> q.None?
    ensures Retrieved(Retrieved(s, q).0, Retrieved(s, q).1) == Retrieved(s, q)
  {
  }

  // ---------------------------------------------------------------------
  // What the trims keep

  /** The 5' trim cuts both strings at the same start, so each becomes a
      suffix of what it was, and equal lengths stay equal. */
  lemma FivePrimeSlicesTogether(r: Read, t: char, crawl: nat)
    requires crawl == 0 ==> |r.quality| > 0
    ensures IsSuffix(FivePrime(r, t, crawl).sequence, r.sequence)
    ensures IsSuffix(FivePrime(r, t, crawl).quality, r.quality)
    ensures |r.sequence| == |r.quality| ==>
              |FivePrime(r, t, crawl).sequence| == |FivePrime(r, t, crawl).quality|
  {
  }

  /** Crawl 0: the 5' trim keeps the read from its first passing base, or
      only the last base when no base passes. */
  lemma FivePrimeWithoutCrawl(r: Read, t: char)
    requires |r.quality| > 0
    ensures var first := First(r.quality, t, true, 0, |r.quality|);
            var res := FivePrime(r, t, 0);
            && (first.Some? ==> res == Read(Drop(r.sequence, first.value), r.quality[first.value..]))
            && (first.Some? ==> Passes(res.quality[0], t))
            && (first.None? ==> res == Read(Drop(r.sequence, |r.quality| - 1), [r.quality[|r.quality| - 1]]))
  {
  }

  /** Crawl > 0 after a passing base i: the kept read starts at i, or one
      past the last failing base among the `crawl` bases after i; every
      kept base of that window passes. */
  lemma {:induction false} FivePrimeWithCrawl(r: Read, t: char, crawl: nat, i: nat)
    requires crawl > 0
    requires First(r.quality, t, true, 0, |r.quality|) == Some(i)
    ensures var q, res := r.quality, FivePrime(r, t, crawl);
            var c, hi := |q| - |res.quality|, Min(i + 1 + crawl, |q|);
            && i <= c <= hi
            && res == Read(Drop(r.sequence, c), q[c..])
            && (c == i <==> forall k :: i < k < hi ==> Passes(q[k], t))
            && (c != i ==> i < c && !Passes(q[c - 1], t))
            && (forall k :: c <= k < hi ==> Passes(q[k], t))
  {
    var q := r.quality;
    var hi := Min(i + 1 + crawl, |q|);
    var cut := FivePrimeCut(q, t, crawl);
    assert cut == OnePast(Last(q, t, false, i + 1, hi), i);
    CrawlForward(q, t, i, hi);
    assert Bound(cut, |q|) == cut;
  }

  /** The crawl after a passing base i over the bases in (i, hi): it stops
      one past the last failing base, or at i when none fails, and all that
      follows up to hi passes. */
  lemma CrawlForward(q: string, t: char, i: nat, hi: nat)
    requires i < hi <= |q|
    requires Passes(q[i], t)
    ensures var cut := OnePast(Last(q, t, false, i + 1, hi), i);
            && i <= cut <= hi
            && (cut == i <==> forall k :: i < k < hi ==> Passes(q[k], t))
            && (cut != i ==> i < cut && !Passes(q[cut - 1], t))
            && (forall k :: cut <= k < hi ==> Passes(q[k], t))
  {
    var regress := Last(q, t, false, i + 1, hi);
    if regress.None? {
      assert forall k :: i + 1 <= k < hi ==> Passes(q[k], t);
    }
  }

  /** Crawl > 0 and no passing base: the first `crawl` bases are dropped
      (all of them when the read is shorter). */
  lemma FivePrimeWithCrawlNoPass(r: Read, t: char, crawl: nat)
    requires crawl > 0
    requires First(r.quality, t, true, 0, |r.quality|).None?
    ensures FivePrime(r, t, crawl).quality == r.quality[Min(crawl, |r.quality|)..]
    ensures r.quality != [] ==> FivePrime(r, t, crawl).sequence == Drop(r.sequence, Min(crawl, |r.quality|))
    ensures r.quality == [] ==> FivePrime(r, t, crawl).sequence == Drop(r.sequence, -1)
  {
    var q := r.quality;
    var regress := Last(q, t, false, 0, Min(crawl, |q|));
    assert q != [] ==> regress == Some(Min(crawl, |q|) - 1);
  }

  /** Crawl 0: a second 5' trim removes nothing more. */
  lemma FivePrimeIdempotent(r: Read, t: char)
    requires |r.quality| > 0
    ensures |FivePrime(r, t, 0).quality| > 0
    ensures FivePrime(FivePrime(r, t, 0), t, 0) == FivePrime(r, t, 0)
  {
    var res := FivePrime(r, t, 0);
    FivePrimeWithoutCrawl(r, t);
    assert FivePrimeCut(res.quality, t, 0) == 0;
  }

  /** The 3' trim cuts both strings at the same end, so each becomes a
      prefix of what it was, and equal lengths stay equal. */
  lemma ThreePrimeSlicesTogether(r: Read, t: char, crawl: nat)
    requires crawl == 0 ==> |r.quality| > 0
    ensures ThreePrime(r, t, crawl).sequence <= r.sequence
    ensures ThreePrime(r, t, crawl).quality <= r.quality
    ensures |r.sequence| == |r.quality| ==>
              |ThreePrime(r, t, crawl).sequence| == |ThreePrime(r, t, crawl).quality|
  {
    if crawl > 0 {
      var trim := ThreePrimeTrim(r.quality, t, crawl);
      ReverseDropReverse(r.sequence, trim);
      ReverseDropReverse(r.quality, trim);
    }
  }

  /** Crawl 0: the 3' trim keeps the read up to and including its last
      passing base, or only the first base when no base passes. */
  lemma ThreePrimeWithoutCrawl(r: Read, t: char)
    requires |r.quality| > 0
    ensures var last := Last(r.quality, t, true, 0, |r.quality|);
            var res := ThreePrime(r, t, 0);
            && (last.Some? ==> res == Read(Take(r.sequence, last.value + 1), r.quality[..last.value + 1]))
            && (last.Some? ==> Passes(res.quality[|res.quality| - 1], t))
            && (last.None? ==> res == Read(Take(r.sequence, 1), r.quality[..1]))
  {
  }

  /** The 3' trim with crawl > 0 keeps a prefix of the quality string and
      cuts the sequence at the same length. */
  lemma ThreePrimeWithCrawlKeeps(r: Read, t: char, crawl: nat)
    requires crawl > 0
    ensures var trim := ThreePrimeTrim(r.quality, t, crawl);
            var res := ThreePrime(r, t, crawl);
            && res.quality == r.quality[..|r.quality| - Bound(trim, |r.quality|)]
            && res.sequence == r.sequence[..|r.sequence| - Bound(trim, |r.sequence|)]
  {
    var trim := ThreePrimeTrim(r.quality, t, crawl);
    ReverseDropReverse(r.sequence, trim);
    ReverseDropReverse(r.quality, trim);
  }

  /** Crawl > 0 after a last passing base i: the trim inspects the bases at
      i-2 down to i-1-crawl (never the base at i-1), and keeps everything
      before the lowest failing one among them, or up to and including i
      when none of them fails. */
  lemma {:induction false} ThreePrimeWithCrawl(r: Read, t: char, crawl: nat, i: nat)
    requires crawl > 0
    requires Last(r.quality, t, true, 0, |r.quality|) == Some(i)
    ensures var q, res := r.quality, ThreePrime(r, t, crawl);
            var m, lo := |res.quality|, Max(0, i - 1 - crawl);
            && m <= i + 1
            && res.quality == q[..m]
            && (|r.sequence| == |q| ==> res.sequence == r.sequence[..m])
            && (m == i + 1 <==> forall k :: lo <= k < i - 1 ==> Passes(q[k], t))
            && (m != i + 1 ==> lo <= m < i - 1 && !Passes(q[m], t))
            && (m != i + 1 ==> forall k :: lo <= k < m ==> Passes(q[k], t))
  {
    var q := r.quality;
    ThreePrimeWithCrawlKeeps(r, t, crawl);
    CrawlBackward(q, t, crawl, i);
    var trim := ThreePrimeTrim(q, t, crawl);
    assert Bound(trim, |q|) == trim;
  }

  /** The crawl of the 3' trim, read back in the original order: it
      removes `trim` bases from the end, where the kept length `|q| - trim`
      is the lowest failing base in [i-1-crawl, i-1), or i+1 when none
      fails. */
  lemma CrawlBackward(q: string, t: char, crawl: nat, i: nat)
    requires Last(q, t, true, 0, |q|) == Some(i)
    ensures var trim := ThreePrimeTrim(q, t, crawl);
            var m, lo := |q| - trim, Max(0, i - 1 - crawl);
            && 0 <= trim <= |q|
            && m <= i + 1
            && (m == i + 1 <==> forall k :: lo <= k < i - 1 ==> Passes(q[k], t))
            && (m != i + 1 ==> lo <= m < i - 1 && !Passes(q[m], t))
            && (m != i + 1 ==> forall k :: lo <= k < m ==> Passes(q[k], t))
  {
    var start := |q| - i + 1;
    var hi := Min(start + crawl, |q|);
    assert ThreePrimeStart(q, t) == start;
    LastInReverse(q, t, false, start, hi);
    var f := First(q, t, false, |q| - hi, |q| - start);
    assert |q| - hi == Max(0, i - 1 - crawl);
    assert ThreePrimeTrim(q, t, crawl) == if f.Some? then |q| - f.value else start - 2;
  }

  /** Two strings that agree on [lo, hi) have the same last passing (or
      failing) base there. */
  lemma {:induction false} LastAgrees(a: string, b: string, t: char, want: bool, lo: nat, hi: int)
    requires hi <= |a| && hi <= |b|
    requires forall k :: lo <= k < hi ==> a[k] == b[k]
    ensures Last(a, t, want, lo, hi) == Last(b, t, want, lo, hi)
    decreases hi - lo
  {
    if lo < hi && Passes(a[hi - 1], t) != want {
      LastAgrees(a, b, t, want, lo, hi - 1);
    }
  }

  /** The last passing base stays the last one when only bases before it
      change. */
  lemma LastPassKept(q: string, q': string, t: char, i: nat)
    requires Last(q, t, true, 0, |q|) == Some(i)
    requires |q'| == |q|
    requires forall k :: i <= k < |q| ==> q'[k] == q[k]
    ensures Last(q', t, true, 0, |q'|) == Some(i)
  {
    var l := Last(q', t, true, 0, |q'|);
    assert Passes(q'[i], t);
  }

  /** The base just before the last passing one is never inspected: changing
      its quality does not move the cut of the 3' trim with crawl > 0. */
  lemma ThreePrimeTrimSkipsBase(q: string, t: char, crawl: nat, i: nat, c: char)
    requires Last(q, t, true, 0, |q|) == Some(i)
    requires 0 < i
    ensures ThreePrimeTrim(q[i - 1 := c], t, crawl) == ThreePrimeTrim(q, t, crawl)
  {
    var q' := q[i - 1 := c];
    LastPassKept(q, q', t, i);
    var start := |q| - i + 1;
    assert ThreePrimeStart(q', t) == ThreePrimeStart(q, t) == start;
    var hi := Min(start + crawl, |q|);
    forall k | start <= k < hi
      ensures Reverse(q')[k] == Reverse(q)[k]
    {
      ReverseAt(q, k);
      ReverseAt(q', k);
    }
    LastAgrees(Reverse(q'), Reverse(q), t, false, start, hi);
  }

  /** So the trimmed read keeps the same sequence and the same number of
      quality characters. */
  lemma ThreePrimeSkipsBase(r: Read, t: char, crawl: nat, i: nat, c: char)
    requires crawl > 0
    requires Last(r.quality, t, true, 0, |r.quality|) == Some(i)
    requires 0 < i
    ensures var r' := Read(r.sequence, r.quality[i - 1 := c]);
            && ThreePrime(r', t, crawl).sequence == ThreePrime(r, t, crawl).sequence
            && |ThreePrime(r', t, crawl).quality| == |ThreePrime(r, t, crawl).quality|
  {
    ThreePrimeTrimSkipsBase(r.quality, t, crawl, i, c);
  }

  /** Crawl > 0 and no passing base: the first two bases are kept (the
      whole read when shorter). */
  lemma ThreePrimeWithCrawlNoPass(r: Read, t: char, crawl: nat)
    requires crawl > 0
    requires Last(r.quality, t, true, 0, |r.quality|).None?
    ensures ThreePrime(r, t, crawl).quality == r.quality[..Min(2, |r.quality|)]
  {
    ThreePrimeWithCrawlKeeps(r, t, crawl);
  }

  /** Crawl 0: a second 3' trim removes nothing more. */
  lemma ThreePrimeIdempotent(r: Read, t: char)
    requires |r.quality| > 0
    ensures |ThreePrime(r, t, 0).quality| > 0
    ensures ThreePrime(ThreePrime(r, t, 0), t, 0) == ThreePrime(r, t, 0)
  {
    var res := ThreePrime(r, t, 0);
    ThreePrimeWithoutCrawl(r, t);
    var last := Last(r.quality, t, true, 0, |r.quality|);
    if last.Some? {
      assert Last(res.quality, t, true, 0, |res.quality|) == Some(last.value);
    } else {
      assert Last(res.quality, t, true, 0, |res.quality|).None?;
    }
  }

  /** Clipping keeps a prefix of both strings, cut at the same place; what is
      kept of the quality string passes throughout, and it is unchanged
      exactly when no base fails. */
  lemma ClipAtFirstFailureKeeps(r: Read, t: char)
    ensures var res := ClipAtFirstFailure(r, t);
            && res.sequence <= r.sequence
            && res.quality <= r.quality
            && (|r.sequence| == |r.quality| ==> |res.sequence| == |res.quality|)
            && (forall k :: 0 <= k < |res.quality| ==> Passes(res.quality[k], t))
            && (res == r <==> FailCount(r.quality, t) == 0)
            && (res != r ==> |res.quality| < |r.quality| && !Passes(r.quality[|res.quality|], t))
  {
  }

  /** Clipping twice is clipping once. */
  lemma ClipAtFirstFailureIdempotent(r: Read, t: char)
    ensures ClipAtFirstFailure(ClipAtFirstFailure(r, t), t) == ClipAtFirstFailure(r, t)
  {
    ClipAtFirstFailureKeeps(r, t);
    var res := ClipAtFirstFailure(r, t);
    assert First(res.quality, t, false, 0, |res.quality|).None?;
  }
}
