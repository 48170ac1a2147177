/** Worked cases of the trimmers on small reads: 'I' is the Sanger
    character of score 40 and '!' that of score 0, so with a threshold of 40
    every 'I' passes and every '!' fails. */
module Scenarios {
  import opened Outcomes
  import opened Phred
  import opened QualityTrim
  import SeqTrim
  import PhredTools

  /** A 5' trim with crawl 0 drops the failing run at the start. */
  lemma FivePrimeDropsLeadingRun()
    ensures FivePrime(Read("ACGTACGT", "!!!!IIII"), Phred33(40), 0) == Read("ACGT", "IIII")
  {
    assert First("!!!!IIII", 'I', true, 0, 8) == Some(4);
  }

  /** A 3' trim with crawl 0 drops the failing run at the end. */
  lemma ThreePrimeDropsTrailingRun()
    ensures ThreePrime(Read("ACGTACGT", "IIII!!!!"), Phred33(40), 0) == Read("ACGT", "IIII")
  {
    assert Last("IIII!!!!", 'I', true, 0, 8) == Some(3);
  }

  /** A global trim allowing 2 failing bases clips a read with 2 of them at
      the first. */
  lemma GlobalTrimClipsAtAllowance()
    ensures PhredTools.CountTrim(Read("ACGTAC", "II!I!I"), Phred33(40), 2) == Read("AC", "II")
  {
    assert FailCount("II!I!I", 'I') == 2 by {
      assert "II!I!I"[..5] == "II!I!";
      assert "II!I!"[..4] == "II!I";
      assert "II!I"[..3] == "II!";
      assert "II!"[..2] == "II";
      assert "II"[..1] == "I";
    }
    assert First("II!I!I", 'I', false, 0, 6) == Some(2);
  }

  /** ... and leaves a read with only 1 alone. */
  lemma GlobalTrimBelowAllowance()
    ensures PhredTools.CountTrim(Read("ACGTAC", "II!III"), Phred33(40), 2) == Read("ACGTAC", "II!III")
  {
    assert FailCount("II!III", 'I') == 1 by {
      assert "II!III"[..5] == "II!II";
      assert "II!II"[..4] == "II!I";
      assert "II!I"[..3] == "II!";
      assert "II!"[..2] == "II";
      assert "II"[..1] == "I";
    }
  }

  /** A read of length 3 is discarded by a minimum length of 5, and is then
      retrieved as absent. */
  method DiscardShortRead() returns (s: Option<string>, q: Option<string>)
    ensures s.None? && q.None?
  {
    var made := SeqTrim.Trim.Create("ACG", "III", 40);
    var trim := made.value;
    var o := trim.MinLength(5);
    s, q := trim.Retrieve();
  }

  /** A read of length 5 survives a minimum length of 5. */
  method KeepLongEnoughRead() returns (s: Option<string>, q: Option<string>)
    ensures s == Some("ACGTA") && q == Some("IIIII")
  {
    var made := PhredTools.EndTrim.Create("ACGTA", "IIIII", 40);
    var trim := made.value;
    var o := trim.MinLength(5);
    s, q := trim.Retrieve();
  }

  /** A read trimmed to nothing is retrieved as absent, twice over. */
  method RetrieveEmptiedRead() returns (s: Option<string>, q: Option<string>, s': Option<string>, q': Option<string>)
    ensures s.None? && q.None? && s' == s && q' == q
  {
    var made := SeqTrim.Trim.Create("ACG", "!!!", 40);
    var trim := made.value;
    var o := trim.GlobalTrim(100);
    ClipAtFirstFailureKeeps(Read("ACG", "!!!"), Phred33(40));
    s, q := trim.Retrieve();
    s', q' := trim.Retrieve();
  }

  /** A score of 100 builds no trimmer. */
  method RefuseScoreAbove93() returns (failure: Result<SeqTrim.Trim, SeqTrim.Exit>)
    ensures failure == Err(SeqTrim.QScoreOutOfRange)
  {
    failure := SeqTrim.Trim.Create("ACG", "III", 100);
  }
}
