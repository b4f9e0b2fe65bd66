/**
 * How the dashboard (web_dashboard/script.js) turns employee numbers into
 * MasterSheet document ids, reads the team-member list of the line-manager
 * form, and renders a generated PIN.
 */
module EmployeeIds {
  import opened Wrappers
  import opened JsStrings

  /** The prefix of every MasterSheet document id. */
  const Prefix: string := "EMP"

  /** The first three characters of `s` spell "EMP" in any letter case. */
  predicate HasPrefixAnyCase(s: string) {
    |s| >= 3 && UpperChar(s[0]) == 'E' && UpperChar(s[1]) == 'M' && UpperChar(s[2]) == 'P'
  }

  /** The check above is `s.toUpperCase().startsWith('EMP')`. */
  lemma HasPrefixAnyCaseIsUpperStartsWith(s: string)
    ensures HasPrefixAnyCase(s) <==> StartsWith(UpperAscii(s), Prefix)
  {
    if |s| >= 3 {
      var u := UpperAscii(s);
      assert u[..3] == Prefix <==> u[0] == 'E' && u[1] == 'M' && u[2] == 'P';
    }
  }

  /** The `Employee Number` cell as the overtime import reads it: stringified and trimmed, "" when absent. */
  function OvertimeNumberText(cell: Option<string>): (n: string)
    ensures IsTrimmed(n)
  {
    if cell.Some? then Trim(cell.value) else ""
  }

  /** Drops a leading "EMP" in any letter case. */
  function StripPrefixAnyCase(n: string): (r: string)
    ensures IsTrimmed(n) && r != [] ==> !IsWhitespace(r[|r| - 1])
  {
    if HasPrefixAnyCase(n) then n[3..] else n
  }

  /** The number part of an `Employee Number` cell: trimmed, with any leading "EMP" dropped. */
  function OvertimeNumber(cell: Option<string>): (n: string)
    ensures n == [] || !IsWhitespace(n[|n| - 1])
  {
    StripPrefixAnyCase(OvertimeNumberText(cell))
  }

  /**
   * The overtime import's document id for an `Employee Number` cell: trim,
   * drop a leading "EMP" in any case, pad to four characters with zeros,
   * put "EMP" in front. An absent cell reads as the empty string.
   */
  function OvertimeDocId(cell: Option<string>): (id: string)
  {
    Prefix + PadStart(OvertimeNumber(cell), 4, '0')
  }

  /** The overtime rule always yields "EMP" and at least four more characters, with no white space at either end. */
  lemma OvertimeDocIdShape(cell: Option<string>)
    ensures var id := OvertimeDocId(cell);
      |id| >= 7 && id[0] == 'E' && id[1] == 'M' && id[2] == 'P' && IsTrimmed(id)
  {
    var stripped := OvertimeNumber(cell);
    var padded := PadStart(stripped, 4, '0');
    PadStartLast(stripped, 4, '0');
    var id := Prefix + padded;
    assert id[0] == 'E' && id[1] == 'M' && id[2] == 'P' && id[|id| - 1] == padded[|padded| - 1];
  }

  /** An id that starts with "EMP" and is trimmed reads as its own number part. */
  lemma PrefixedReadsAsTail(id: string)
    requires |id| >= 3 && id[0] == 'E' && id[1] == 'M' && id[2] == 'P' && IsTrimmed(id)
    ensures StripPrefixAnyCase(OvertimeNumberText(Some(id))) == id[3..]
  {
    TrimKeepsTrimmed(id);
  }

  /** Normalising an id the overtime rule produced gives the same id again. */
  lemma OvertimeDocIdIdempotent(cell: Option<string>)
    ensures OvertimeDocId(Some(OvertimeDocId(cell))) == OvertimeDocId(cell)
  {
    var id := OvertimeDocId(cell);
    OvertimeDocIdShape(cell);
    PrefixedReadsAsTail(id);
    assert Prefix + id[3..] == id;
  }

  /** A run of digits has neither white space nor a case-insensitive "EMP" in front. */
  lemma DigitsAreBare(d: string)
    requires IsDigits(d)
    ensures IsTrimmed(d) && OvertimeNumberText(Some(d)) == d && StripPrefixAnyCase(d) == d
  {
    if d != [] {
      assert !IsWhitespace(d[0]) && !IsWhitespace(d[|d| - 1]);
    }
    TrimKeepsTrimmed(d);
  }

  /** Zeros in front of a digit string do not change its value. */
  lemma PaddedDigits(d: string)
    requires IsDigits(d)
    ensures IsDigits(PadStart(d, 4, '0')) && ParseNat(PadStart(d, 4, '0')) == ParseNat(d)
  {
    if |d| < 4 {
      assert PadStart(d, 4, '0') == Repeat('0', 4 - |d|) + d;
      ParseNatLeadingZeros(4 - |d|, d);
    }
  }

  /** A bare run of digits is padded to four characters and prefixed. */
  lemma OvertimeDocIdOfDigits(d: string)
    requires IsDigits(d)
    ensures OvertimeDocId(Some(d)) == Prefix + PadStart(d, 4, '0')
  {
    DigitsAreBare(d);
  }

  /** The number part of the id of a bare run of digits reads as the same value. */
  lemma OvertimeDocIdKeepsValue(d: string)
    requires IsDigits(d)
    ensures IsDigits(OvertimeDocId(Some(d))[3..])
    ensures ParseNat(OvertimeDocId(Some(d))[3..]) == ParseNat(d)
  {
    OvertimeDocIdOfDigits(d);
    PaddedDigits(d);
    var padded := PadStart(d, 4, '0');
    assert (Prefix + padded)[3..] == padded;
  }

  /** A bare number and the same number with "EMP" or "emp" in front reach the same document. */
  lemma OvertimeDocIdIgnoresPrefix(d: string)
    requires IsDigits(d)
    ensures OvertimeDocId(Some(Prefix + d)) == OvertimeDocId(Some(d))
    ensures OvertimeDocId(Some("emp" + d)) == OvertimeDocId(Some(d))
  {
    DigitsAreBare(d);
    ReadsPrefixed(Prefix + d, d);
    ReadsPrefixed("emp" + d, d);
  }

  /** A trimmed cell of the form "EMP"+d in any case reads as d. */
  lemma ReadsPrefixed(s: string, d: string)
    requires IsDigits(d) && |s| == |d| + 3 && s[3..] == d
    requires UpperChar(s[0]) == 'E' && UpperChar(s[1]) == 'M' && UpperChar(s[2]) == 'P'
    ensures StripPrefixAnyCase(OvertimeNumberText(Some(s))) == d
  {
    DigitsAreBare(d);
    assert !IsWhitespace(s[0]);
    assert d != [] ==> s[|s| - 1] == d[|d| - 1];
    TrimKeepsTrimmed(s);
  }

  /** "7" gives EMP0007. */
  lemma OvertimeDocIdOfSeven()
    ensures OvertimeDocId(Some("7")) == "EMP0007"
  {
    assert IsDigits("7");
    OvertimeDocIdOfDigits("7");
    assert PadStart("7", 4, '0') == "0007" by { assert Repeat('0', 3) == "000"; }
  }

  /** "EMP0007" gives EMP0007 again. */
  lemma OvertimeDocIdOfPrefixed()
    ensures OvertimeDocId(Some("EMP0007")) == "EMP0007"
  {
    PrefixedReadsAsTail("EMP0007");
    assert "EMP0007"[3..] == "0007";
  }

  /** "emp7" gives EMP0007. */
  lemma OvertimeDocIdOfLowerPrefixed()
    ensures OvertimeDocId(Some("emp7")) == "EMP0007"
  {
    assert IsDigits("7");
    OvertimeDocIdIgnoresPrefix("7");
    assert "emp" + "7" == "emp7";
    OvertimeDocIdOfSeven();
  }

  /** " 7 " gives EMP0007: the white space is trimmed first. */
  lemma OvertimeDocIdOfPaddedSeven()
    ensures OvertimeDocId(Some(" 7 ")) == "EMP0007"
  {
    TrimmedSeven();
    OvertimeDocIdOfSeven();
  }

  lemma TrimmedSeven()
    ensures Trim(" 7 ") == "7"
  {
    assert TrimStart(" 7 ") == TrimStart("7 ");
    assert TrimEnd("7 ") == TrimEnd("7");
  }

  /** A missing cell gives EMP0000. */
  lemma OvertimeDocIdOfMissing()
    ensures OvertimeDocId(None) == "EMP0000"
  {
    assert PadStart("", 4, '0') == "0000" by { assert Repeat('0', 4) == "0000"; }
  }

  /**
   * The line-manager form's document id for a team token: a token that
   * starts with "EMP" (case-sensitive) is kept as it is, any other token is
   * padded to four characters and prefixed.
   */
  function TeamMemberDocId(token: string): (id: string)
    ensures StartsWith(id, Prefix)
    ensures StartsWith(token, Prefix) ==> id == token
    ensures !StartsWith(token, Prefix) ==> id[3..] == PadStart(token, 4, '0')
  {
    if StartsWith(token, Prefix) then token else Prefix + PadStart(token, 4, '0')
  }

  /** Normalising a team id again changes nothing. */
  lemma TeamMemberDocIdIdempotent(token: string)
    ensures TeamMemberDocId(TeamMemberDocId(token)) == TeamMemberDocId(token)
  {
  }

  /** On a bare run of digits the team rule and the overtime rule agree. */
  lemma TeamAndOvertimeAgreeOnDigits(d: string)
    requires IsDigits(d)
    ensures TeamMemberDocId(d) == OvertimeDocId(Some(d))
  {
    OvertimeDocIdOfDigits(d);
    TeamMemberDocIdOfDigits(d);
  }

  /** A run of digits does not start with "EMP", so the team rule pads and prefixes it. */
  lemma TeamMemberDocIdOfDigits(d: string)
    requires IsDigits(d)
    ensures TeamMemberDocId(d) == Prefix + PadStart(d, 4, '0')
  {
    assert !StartsWith(d, Prefix) by {
      if |d| >= 3 {
        assert d[..3] != Prefix by { assert d[0] != 'E'; }
      }
    }
  }

  /** On "EMP7" the rules differ: the team rule keeps the token unpadded, the overtime rule pads it. */
  lemma TeamKeepsPrefixedToken()
    ensures TeamMemberDocId("EMP7") == "EMP7"
    ensures OvertimeDocId(Some("EMP7")) == "EMP0007"
  {
    assert StartsWith("EMP7", Prefix) by { assert "EMP7"[..3] == Prefix; }
    assert IsDigits("7");
    OvertimeDocIdIgnoresPrefix("7");
    assert Prefix + "7" == "EMP7";
    OvertimeDocIdOfSeven();
  }

  /**
   * On "emp7" the rules differ: the team rule treats the token as a bare
   * number (the overtime rule gives EMP0007, OvertimeDocIdOfLowerPrefixed).
   */
  lemma TeamPrefixesLowerCaseToken()
    ensures TeamMemberDocId("emp7") == "EMPemp7"
  {
    assert !StartsWith("emp7", Prefix) by { assert "emp7"[..3][0] == 'e'; }
    assert PadStart("emp7", 4, '0') == "emp7";
  }

  /** Trims each piece and drops the empty ones. */
  function KeepNonEmptyTrimmed(parts: seq<string>): (r: seq<string>)
    ensures |r| <= |parts|
    ensures forall i :: 0 <= i < |r| ==> r[i] != "" && IsTrimmed(r[i])
    ensures (forall i :: 0 <= i < |parts| ==> ',' !in parts[i]) ==> forall i :: 0 <= i < |r| ==> ',' !in r[i]
    decreases |parts|
  {
    if parts == [] then []
    else
      var t := Trim(parts[0]);
      var rest := KeepNonEmptyTrimmed(parts[1..]);
      var r := (if t == "" then [] else [t]) + rest;
      assert ',' !in parts[0] ==> ',' !in t by {
        if ',' !in parts[0] { TrimKeepsOut(parts[0], ','); }
      }
      r
  }

  /**
   * `teamMembersInput.split(',').map(pin => pin.trim()).filter(pin => pin)`:
   * the non-empty trimmed pieces between commas.
   */
  function ParseTeamMembers(input: string): (tokens: seq<string>)
    ensures forall i :: 0 <= i < |tokens| ==> tokens[i] != "" && IsTrimmed(tokens[i]) && ',' !in tokens[i]
  {
    KeepNonEmptyTrimmed(Split(input, ','))
  }

  /** Pieces that are already trimmed and non-empty pass through unchanged. */
  lemma {:induction false} KeepNonEmptyTrimmedKeeps(parts: seq<string>)
    requires forall i :: 0 <= i < |parts| ==> parts[i] != "" && IsTrimmed(parts[i])
    ensures KeepNonEmptyTrimmed(parts) == parts
    decreases |parts|
  {
    if parts != [] {
      TrimKeepsTrimmed(parts[0]);
      KeepNonEmptyTrimmedKeeps(parts[1..]);
      assert [parts[0]] + parts[1..] == parts;
    }
  }

  /** Writing a team as its tokens joined by commas and reading it back gives the same tokens. */
  lemma ParseTeamMembersJoin(tokens: seq<string>)
    requires forall i :: 0 <= i < |tokens| ==> tokens[i] != "" && IsTrimmed(tokens[i]) && ',' !in tokens[i]
    ensures ParseTeamMembers(Join(tokens, ',')) == tokens
  {
    if tokens == [] {
      assert Split([], ',') == [[]];
      assert Trim([]) == [];
    } else {
      SplitJoin(tokens, ',');
      KeepNonEmptyTrimmedKeeps(tokens);
    }
  }

  /** An empty input names no team member. */
  lemma ParseTeamMembersOfEmpty()
    ensures ParseTeamMembers("") == []
  {
    assert Split("", ',') == [""];
    assert Trim("") == "";
  }

  /** Blanks around a token are trimmed and an empty piece between two commas is dropped. */
  lemma ParseTeamMembersSkipsBlanks()
    ensures ParseTeamMembers(" 7 ,,EMP0012") == ["7", "EMP0012"]
  {
    SampleSplit();
    SampleKept();
  }

  /** The pieces of the sample input between commas. */
  lemma SampleSplit()
    ensures Split(" 7 ,,EMP0012", ',') == [" 7 ", "", "EMP0012"]
  {
    var parts := [" 7 ", "", "EMP0012"];
    assert Join(parts, ',') == " 7 ,,EMP0012" by {
      assert Join(parts[2..], ',') == "EMP0012";
      assert Join(parts[1..], ',') == ",EMP0012";
    }
    SplitJoin(parts, ',');
  }

  /** The sample pieces after trimming and dropping the empty one. */
  lemma SampleKept()
    ensures KeepNonEmptyTrimmed([" 7 ", "", "EMP0012"]) == ["7", "EMP0012"]
  {
    var parts := [" 7 ", "", "EMP0012"];
    KeptAfterBlank();
    TrimmedSeven();
    assert parts[1..] == ["", "EMP0012"];
  }

  /** A blank piece before a clean token is dropped. */
  lemma KeptAfterBlank()
    ensures KeepNonEmptyTrimmed(["", "EMP0012"]) == ["EMP0012"]
  {
    var parts := ["", "EMP0012"];
    assert IsTrimmed("EMP0012");
    KeepNonEmptyTrimmedKeeps(["EMP0012"]);
    assert parts[1..] == ["EMP0012"];
    assert Trim("") == "";
  }

  /**
   * `generateRandomPIN()` for one draw of `Math.floor(Math.random() * 9000)`:
   * a four-digit string whose value lies in 1000..9999.
   */
  function GenerateRandomPin(draw: nat): (pin: string)
    requires draw < 9000
    ensures |pin| == 4 && IsDigits(pin) && pin[0] != '0'
    ensures 1000 <= ParseNat(pin) <= 9999
  {
    var n := 1000 + draw;
    FourDigits(n);
    NatToString(n)
  }

  /** A number from 1000 to 9999 is written with four digits. */
  lemma FourDigits(n: nat)
    requires 1000 <= n < 10000
    ensures |NatToString(n)| == 4
  {
    var n3 := n / 10;
    var n2 := n3 / 10;
    var n1 := n2 / 10;
    assert |NatToString(n1)| == 1;
    assert |NatToString(n2)| == 2;
    assert |NatToString(n3)| == 3;
  }

  /**
   * The MasterSheet import's `employeeNumber`: the cell padded to four
   * characters and NOT trimmed; an absent cell gives the empty string.
   */
  function MasterSheetNumber(cell: Option<string>): (n: string)
    ensures cell.Some? ==> |n| == (if |cell.value| < 4 then 4 else |cell.value|)
    ensures cell.Some? ==> n == Repeat('0', |n| - |cell.value|) + cell.value
    ensures cell.Some? ==> n[|n| - |cell.value|..] == cell.value
    ensures cell.None? ==> n == ""
  {
    if cell.Some? then PadStart(cell.value, 4, '0') else ""
  }

  /** The MasterSheet document id of an employee number. */
  function MasterSheetDocId(number: string): (id: string)
    ensures |id| == |number| + 3 && StartsWith(id, Prefix) && id[3..] == number
  {
    Prefix + number
  }

  /**
   * A record imported from a bare-digit `EmployeeNumber` is found by the
   * overtime import under that number with or without the prefix.
   */
  lemma OvertimeFindsImportedNumber(d: string)
    requires IsDigits(d)
    ensures OvertimeDocId(Some(d)) == MasterSheetDocId(MasterSheetNumber(Some(d)))
    ensures OvertimeDocId(Some(Prefix + d)) == MasterSheetDocId(MasterSheetNumber(Some(d)))
  {
    OvertimeDocIdOfDigits(d);
    OvertimeDocIdIgnoresPrefix(d);
  }

  /** White space in front of a number is kept by the MasterSheet import ... */
  lemma MasterSheetNumberNotTrimmed()
    ensures MasterSheetNumber(Some(" 7")) == "00 7"
  {
    assert Repeat('0', 2) == "00";
  }

  /** ... but dropped by the overtime import. */
  lemma OvertimeNumberTrimmed()
    ensures OvertimeDocId(Some(" 7")) == "EMP0007"
  {
    assert Trim(" 7") == "7" by {
      assert TrimStart(" 7") == TrimStart("7");
      assert TrimEnd("7") == TrimEnd("7");
    }
    OvertimeDocIdOfSeven();
  }
}
