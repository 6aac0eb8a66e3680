/** The identifier format of SEIS-PROV records: the local part of an identifier in
    the SEIS-PROV namespace must match `^sp\d{3,5}_<code>_[a-z0-9]{7,12}$` under
    Python's `re.match`, where <code> is the Definition's two-letter code. */
module IdPattern {
  import Text

  predicate LowerAlnum(c: char) {
    'a' <= c <= 'z' || '0' <= c <= '9'
  }

  predicate AllDigits(s: string) {
    forall i :: 0 <= i < |s| ==> Text.IsDigit(s[i])
  }

  predicate AllLowerAlnum(s: string) {
    forall i :: 0 <= i < |s| ==> LowerAlnum(s[i])
  }

  /** `[a-z0-9]{7,12}$`: without MULTILINE, `$` matches at the end of the string or
      just before a newline that ends it. */
  predicate TailMatches(t: string) {
    || (7 <= |t| <= 12 && AllLowerAlnum(t))
    || (8 <= |t| <= 13 && t[|t| - 1] == '\n' && AllLowerAlnum(t[..|t| - 1]))
  }

  /** The pattern with exactly `k` digits after "sp". */
  predicate MatchesWithDigits(local: string, code: string, k: nat) {
    var sep1 := 2 + k;
    var sep2 := sep1 + 1 + |code|;
    && sep2 < |local|
    && local[..2] == "sp"
    && AllDigits(local[2..sep1])
    && local[sep1] == '_'
    && local[sep1 + 1..sep2] == code
    && local[sep2] == '_'
    && TailMatches(local[sep2 + 1..])
  }

  /** `re.match(IdRegex(code), local) is not None`, for a code without regular
      expression metacharacters and with `\d` read as the ASCII digits: `\d{3,5}`
      may take three, four or five digits. */
  predicate IdMatches(local: string, code: string) {
    MatchesWithDigits(local, code, 3) || MatchesWithDigits(local, code, 4) || MatchesWithDigits(local, code, 5)
  }

  /** The regular expression as the error message prints it. */
  function IdRegex(code: string): string {
    "^sp\\d{3,5}_" + code + "_[a-z0-9]{7,12}$"
  }

  /** An identifier assembled from its parts. */
  function BuildId(digits: string, code: string, tail: string): string {
    "sp" + digits + "_" + code + "_" + tail
  }

  predicate WellFormedParts(digits: string, tail: string) {
    3 <= |digits| <= 5 && AllDigits(digits) && 7 <= |tail| <= 12 && AllLowerAlnum(tail)
  }

  /** Every identifier assembled from well-formed parts matches. */
  lemma BuiltIdMatches(digits: string, code: string, tail: string)
    requires WellFormedParts(digits, tail)
    ensures IdMatches(BuildId(digits, code, tail), code)
  {
    var local := BuildId(digits, code, tail);
    var k := |digits|;
    var sep2 := 2 + k + 1 + |code|;
    assert local[..2] == "sp";
    assert local[2..2 + k] == digits;
    assert local[2 + k + 1..sep2] == code;
    assert local[sep2 + 1..] == tail;
    assert MatchesWithDigits(local, code, k);
  }

  /** Conversely, a matching identifier that holds no newline is assembled from
      well-formed parts: the pattern accepts exactly these identifiers. */
  lemma MatchingIdDecomposes(local: string, code: string)
    requires IdMatches(local, code) && '\n' !in local
    ensures exists digits, tail :: WellFormedParts(digits, tail) && local == BuildId(digits, code, tail)
  {
    var k :| 3 <= k <= 5 && MatchesWithDigits(local, code, k);
    var sep2 := 2 + k + 1 + |code|;
    var digits, tail := local[2..2 + k], local[sep2 + 1..];
    assert MatchesWithDigits(local, code, k);
    if |tail| > 0 {
      assert tail[|tail| - 1] == local[|local| - 1];
    }
    assert local[sep2] == '_';
    assert local == local[..2] + digits + [local[2 + k]] + local[2 + k + 1..sep2] + [local[sep2]] + tail;
    assert [local[2 + k]] == "_" && [local[sep2]] == "_";
    assert local == BuildId(digits, code, tail);
  }

  /** `$` also matches before a final newline, so a trailing "\n" is accepted. */
  lemma TrailingNewlineAccepted(digits: string, code: string, tail: string)
    requires WellFormedParts(digits, tail)
    ensures IdMatches(BuildId(digits, code, tail) + "\n", code)
  {
    var local := BuildId(digits, code, tail) + "\n";
    var k := |digits|;
    var sep2 := 2 + k + 1 + |code|;
    assert local[..2] == "sp";
    assert local[2..2 + k] == digits;
    assert local[2 + k + 1..sep2] == code;
    assert local[sep2 + 1..] == tail + "\n";
    assert (tail + "\n")[..|tail|] == tail;
    assert MatchesWithDigits(local, code, k);
  }

  /** Identifiers of the example documents: "sp000_sa_9dig8ata" has the current
      format; "sa_9DIG8A-TA" has the older one and is rejected. */
  lemma ExampleIdentifiers()
    ensures IdMatches("sp000_sa_9dig8ata", "sa")
    ensures IdMatches("sp001_sa_9345084", "sa")
    ensures !IdMatches("sa_9DIG8A-TA", "sa")
  {
    BuiltIdMatches("000", "sa", "9dig8ata");
    assert BuildId("000", "sa", "9dig8ata") == "sp000_sa_9dig8ata";
    BuiltIdMatches("001", "sa", "9345084");
    assert BuildId("001", "sa", "9345084") == "sp001_sa_9345084";
    var old_id := "sa_9DIG8A-TA";
    assert old_id[..2][1] == 'a';
  }
}
