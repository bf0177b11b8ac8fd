/** Syntax of package names, versions, architectures and digests (tools/native_apt_prerequisites.py). */
module AptSyntax {
  import opened Alphabets

  predicate NameChar(c: char) {
    LowerOrDigit(c) || c in "+.-"
  }

  predicate ArchitectureChar(c: char) {
    LowerOrDigit(c) || c == '-'
  }

  predicate VersionChar(c: char) {
    LowerOrDigit(c) || 'A' <= c <= 'Z' || c in ".+~-"
  }

  predicate HexChar(c: char) {
    Digit(c) || 'a' <= c <= 'f'
  }

  /** `[a-z0-9][a-z0-9+.-]+` */
  predicate ValidName(s: string) {
    |s| >= 2 && LowerOrDigit(s[0]) && forall i :: 1 <= i < |s| ==> NameChar(s[i])
  }

  /** `[0-9][A-Za-z0-9.+~-]*` */
  predicate VersionBody(s: string) {
    s != "" && Digit(s[0]) && forall i :: 1 <= i < |s| ==> VersionChar(s[i])
  }

  predicate Digits(s: string) {
    s != "" && forall i :: 0 <= i < |s| ==> Digit(s[i])
  }

  /** A version, after an epoch of digits and a colon if there is one. */
  predicate ValidVersion(s: string) {
    VersionBody(s) || exists k :: 0 < k < |s| && s[k] == ':' && Digits(s[..k]) && VersionBody(s[k + 1..])
  }

  /** `[a-z0-9][a-z0-9-]*` */
  predicate ValidArchitecture(s: string) {
    s != "" && LowerOrDigit(s[0]) && forall i :: 1 <= i < |s| ==> ArchitectureChar(s[i])
  }

  /** Sixty-four lower-case hexadecimal digits. */
  predicate ValidSha(s: string) {
    |s| == 64 && forall i :: 0 <= i < |s| ==> HexChar(s[i])
  }

  // ----- the same, as alphabets

  const NAME_SET := ALNUM + {'+', '.', '-'}
  const ARCHITECTURE_SET := ALNUM + {'-'}
  const VERSION_SET := ALNUM + UPPER + {'.', '+', '~', '-'}
  const HEX_SET := DIGITS + {'a', 'b', 'c', 'd', 'e', 'f'}

  lemma NameCharMeans(c: char)
    ensures NameChar(c) <==> c in NAME_SET
  {
    LettersMean(c);
    assert "+.-"[0] == '+' && "+.-"[1] == '.' && "+.-"[2] == '-';
  }

  lemma ArchitectureCharMeans(c: char)
    ensures ArchitectureChar(c) <==> c in ARCHITECTURE_SET
  {
    LettersMean(c);
  }

  lemma VersionCharMeans(c: char)
    ensures VersionChar(c) <==> c in VERSION_SET
  {
    LettersMean(c);
    assert ".+~-"[0] == '.' && ".+~-"[1] == '+' && ".+~-"[2] == '~' && ".+~-"[3] == '-';
  }

  lemma HexCharMeans(c: char)
    ensures HexChar(c) <==> c in HEX_SET
  {
    LettersMean(c);
  }

  lemma SetsMean()
    ensures forall c :: LowerOrDigit(c) <==> c in ALNUM
    ensures forall c :: Digit(c) <==> c in DIGITS
    ensures forall c :: NameChar(c) <==> c in NAME_SET
    ensures forall c :: ArchitectureChar(c) <==> c in ARCHITECTURE_SET
    ensures forall c :: VersionChar(c) <==> c in VERSION_SET
    ensures forall c :: HexChar(c) <==> c in HEX_SET
    ensures ALNUM <= NAME_SET && ALNUM <= ARCHITECTURE_SET && DIGITS <= VERSION_SET
  {
    forall c
      ensures LowerOrDigit(c) <==> c in ALNUM
      ensures Digit(c) <==> c in DIGITS
      ensures NameChar(c) <==> c in NAME_SET
      ensures ArchitectureChar(c) <==> c in ARCHITECTURE_SET
      ensures VersionChar(c) <==> c in VERSION_SET
      ensures HexChar(c) <==> c in HEX_SET
    {
      LettersMean(c);
      NameCharMeans(c);
      ArchitectureCharMeans(c);
      VersionCharMeans(c);
      HexCharMeans(c);
    }
  }

  /** A name has two characters or more and starts with a letter or a digit. */
  lemma NamesMean(s: string)
    ensures ValidName(s) <==> |s| >= 2 && s[0] in ALNUM && Over(s, NAME_SET)
    ensures ValidArchitecture(s) <==> |s| >= 1 && s[0] in ALNUM && Over(s, ARCHITECTURE_SET)
  {
    SetsMean();
    if s != "" {
      LedOver(s, LowerOrDigit, ALNUM, NameChar, NAME_SET);
      LedOver(s, LowerOrDigit, ALNUM, ArchitectureChar, ARCHITECTURE_SET);
    }
  }

  /** A digest is 64 hexadecimal digits in lower case; a size is digits only. */
  lemma DigestsMean(s: string)
    ensures ValidSha(s) <==> |s| == 64 && Over(s, HEX_SET)
    ensures Digits(s) <==> s != "" && Over(s, DIGITS)
  {
    SetsMean();
    AllOver(s, HEX_SET, HexChar);
    AllOver(s, DIGITS, Digit);
  }

  /** A version starts with a digit, after an epoch of digits and a colon if it has one. */
  lemma VersionsMean(s: string)
    ensures VersionBody(s) <==> s != "" && s[0] in DIGITS && Over(s, VERSION_SET)
    ensures ValidVersion(s) <==>
            || VersionBody(s)
            || exists epoch: string, body: string :: s == epoch + ":" + body && Digits(epoch) && VersionBody(body)
  {
    SetsMean();
    if s != "" {
      LedOver(s, Digit, DIGITS, VersionChar, VERSION_SET);
    }
    EpochsMean(s);
  }

  lemma EpochsMean(s: string)
    ensures (exists k :: 0 < k < |s| && s[k] == ':' && Digits(s[..k]) && VersionBody(s[k + 1..])) <==>
            exists epoch: string, body: string :: s == epoch + ":" + body && Digits(epoch) && VersionBody(body)
  {
    if k :| 0 < k < |s| && s[k] == ':' && Digits(s[..k]) && VersionBody(s[k + 1..]) {
      assert s == s[..k] + ":" + s[k + 1..];
    }
    if epoch: string, body: string :| s == epoch + ":" + body && Digits(epoch) && VersionBody(body) {
      assert s[..|epoch|] == epoch && s[|epoch|] == ':' && s[|epoch| + 1..] == body;
    }
  }
}
