/** The two quality encodings of FASTQ reads: Sanger (Phred+33), where a
    Phred score s is written as the character with code s + 33, and the old
    Illumina encoding (Phred+64), where it is written as code s + 64. Both
    source files build the same two lookup tables; this module is those
    tables, as functions on character codes. */
module Phred {

  /** The keys of the Phred+33 table: the scores 0..93. */
  predicate IsScore(s: int) { 0 <= s <= 93 }

  /** The Phred+33 table, from score to Sanger character. */
  function Phred33(s: int): (c: char)
    requires IsScore(s)
    ensures '!' <= c <= '~'
    ensures SangerScore(c) == s
  {
    (s + 33) as char
  }

  /** The keys of the Phred+64 table: the characters '@'..'~'. */
  predicate IsIllumina(c: char) { '@' <= c <= '~' }

  /** The Phred+64 table, from Illumina character to score. */
  function Phred64(c: char): (s: int)
    requires IsIllumina(c)
    ensures 0 <= s <= 62
    ensures (s + 64) as char == c
  {
    c as int - 64
  }

  /** A quality line every character of which is a key of the Phred+64 table. */
  predicate IsIlluminaLine(line: string)
  {
    forall k :: 0 <= k < |line| ==> IsIllumina(line[k])
  }

  /** The score a Sanger character stands for. */
  function SangerScore(c: char): int { c as int - 33 }

  /** One character of a conversion: its Phred+64 score looked up in the
      Phred+33 table. */
  function ToSanger(c: char): (r: char)
    requires IsIllumina(c)
    ensures SangerScore(r) == Phred64(c)
    ensures r as int == c as int - 31
    ensures '!' <= r <= '_'
  {
    Phred33(Phred64(c))
  }

  /** Every entry of the score-to-Sanger table, as listed in the source. */
  lemma Phred33Entries()
    ensures Phred33(0) == '!'
    ensures Phred33(1) == '"'
    ensures Phred33(2) == '#'
    ensures Phred33(3) == '$'
    ensures Phred33(4) == '%'
    ensures Phred33(5) == '&'
    ensures Phred33(6) == '\''
    ensures Phred33(7) == '('
    ensures Phred33(8) == ')'
    ensures Phred33(9) == '*'
    ensures Phred33(10) == '+'
    ensures Phred33(11) == ','
    ensures Phred33(12) == '-'
    ensures Phred33(13) == '.'
    ensures Phred33(14) == '/'
    ensures Phred33(15) == '0'
    ensures Phred33(16) == '1'
    ensures Phred33(17) == '2'
    ensures Phred33(18) == '3'
    ensures Phred33(19) == '4'
    ensures Phred33(20) == '5'
    ensures Phred33(21) == '6'
    ensures Phred33(22) == '7'
    ensures Phred33(23) == '8'
    ensures Phred33(24) == '9'
    ensures Phred33(25) == ':'
    ensures Phred33(26) == ';'
    ensures Phred33(27) == '<'
    ensures Phred33(28) == '='
    ensures Phred33(29) == '>'
    ensures Phred33(30) == '?'
    ensures Phred33(31) == '@'
    ensures Phred33(32) == 'A'
    ensures Phred33(33) == 'B'
    ensures Phred33(34) == 'C'
    ensures Phred33(35) == 'D'
    ensures Phred33(36) == 'E'
    ensures Phred33(37) == 'F'
    ensures Phred33(38) == 'G'
    ensures Phred33(39) == 'H'
    ensures Phred33(40) == 'I'
    ensures Phred33(41) == 'J'
    ensures Phred33(42) == 'K'
    ensures Phred33(43) == 'L'
    ensures Phred33(44) == 'M'
    ensures Phred33(45) == 'N'
    ensures Phred33(46) == 'O'
    ensures Phred33(47) == 'P'
    ensures Phred33(48) == 'Q'
    ensures Phred33(49) == 'R'
    ensures Phred33(50) == 'S'
    ensures Phred33(51) == 'T'
    ensures Phred33(52) == 'U'
    ensures Phred33(53) == 'V'
    ensures Phred33(54) == 'W'
    ensures Phred33(55) == 'X'
    ensures Phred33(56) == 'Y'
    ensures Phred33(57) == 'Z'
    ensures Phred33(58) == '['
    ensures Phred33(59) == '\\'
    ensures Phred33(60) == ']'
    ensures Phred33(61) == '^'
    ensures Phred33(62) == '_'
    ensures Phred33(63) == '`'
    ensures Phred33(64) == 'a'
    ensures Phred33(65) == 'b'
    ensures Phred33(66) == 'c'
    ensures Phred33(67) == 'd'
    ensures Phred33(68) == 'e'
    ensures Phred33(69) == 'f'
    ensures Phred33(70) == 'g'
    ensures Phred33(71) == 'h'
    ensures Phred33(72) == 'i'
    ensures Phred33(73) == 'j'
    ensures Phred33(74) == 'k'
    ensures Phred33(75) == 'l'
    ensures Phred33(76) == 'm'
    ensures Phred33(77) == 'n'
    ensures Phred33(78) == 'o'
    ensures Phred33(79) == 'p'
    ensures Phred33(80) == 'q'
    ensures Phred33(81) == 'r'
    ensures Phred33(82) == 's'
    ensures Phred33(83) == 't'
    ensures Phred33(84) == 'u'
    ensures Phred33(85) == 'v'
    ensures Phred33(86) == 'w'
    ensures Phred33(87) == 'x'
    ensures Phred33(88) == 'y'
    ensures Phred33(89) == 'z'
    ensures Phred33(90) == '{'
    ensures Phred33(91) == '|'
    ensures Phred33(92) == '}'
    ensures Phred33(93) == '~'
  {
  }

  /** Every entry of the Illumina-to-score table, as listed in the source. */
  lemma Phred64Entries()
    ensures Phred64('@') == 0
    ensures Phred64('A') == 1
    ensures Phred64('B') == 2
    ensures Phred64('C') == 3
    ensures Phred64('D') == 4
    ensures Phred64('E') == 5
    ensures Phred64('F') == 6
    ensures Phred64('G') == 7
    ensures Phred64('H') == 8
    ensures Phred64('I') == 9
    ensures Phred64('J') == 10
    ensures Phred64('K') == 11
    ensures Phred64('L') == 12
    ensures Phred64('M') == 13
    ensures Phred64('N') == 14
    ensures Phred64('O') == 15
    ensures Phred64('P') == 16
    ensures Phred64('Q') == 17
    ensures Phred64('R') == 18
    ensures Phred64('S') == 19
    ensures Phred64('T') == 20
    ensures Phred64('U') == 21
    ensures Phred64('V') == 22
    ensures Phred64('W') == 23
    ensures Phred64('X') == 24
    ensures Phred64('Y') == 25
    ensures Phred64('Z') == 26
    ensures Phred64('[') == 27
    ensures Phred64('\\') == 28
    ensures Phred64(']') == 29
    ensures Phred64('^') == 30
    ensures Phred64('_') == 31
    ensures Phred64('`') == 32
    ensures Phred64('a') == 33
    ensures Phred64('b') == 34
    ensures Phred64('c') == 35
    ensures Phred64('d') == 36
    ensures Phred64('e') == 37
    ensures Phred64('f') == 38
    ensures Phred64('g') == 39
    ensures Phred64('h') == 40
    ensures Phred64('i') == 41
    ensures Phred64('j') == 42
    ensures Phred64('k') == 43
    ensures Phred64('l') == 44
    ensures Phred64('m') == 45
    ensures Phred64('n') == 46
    ensures Phred64('o') == 47
    ensures Phred64('p') == 48
    ensures Phred64('q') == 49
    ensures Phred64('r') == 50
    ensures Phred64('s') == 51
    ensures Phred64('t') == 52
    ensures Phred64('u') == 53
    ensures Phred64('v') == 54
    ensures Phred64('w') == 55
    ensures Phred64('x') == 56
    ensures Phred64('y') == 57
    ensures Phred64('z') == 58
    ensures Phred64('{') == 59
    ensures Phred64('|') == 60
    ensures Phred64('}') == 61
    ensures Phred64('~') == 62
  {
  }

  /** Each Phred+64 score is a key of the Phred+33 table, so a conversion
      never fails on its second lookup. */
  lemma Phred64ScoresAreKeys(c: char)
    requires IsIllumina(c)
    ensures IsScore(Phred64(c)) && Phred64(c) <= 62
  {
  }

  /** Decoding a Sanger character recovers the score it was made from, and
      the table is strictly increasing, so comparing characters compares
      scores. */
  lemma Phred33RoundTrip(s: int, s': int)
    requires IsScore(s) && IsScore(s')
    ensures SangerScore(Phred33(s)) == s
    ensures s <= s' <==> Phred33(s) <= Phred33(s')
  {
  }
}
