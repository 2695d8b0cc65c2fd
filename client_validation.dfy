/** The client-side helpers of the blessing form: the character counter
    and the PII detection hook. Both are effects that settle React state;
    the model gives the state they settle to. */
module ClientValidation {
  import opened Common
  import opened Js
  import opened Pii
  import opened Blessings

  /** `{ count, isExceeded, remaining }` */
  datatype CharacterCount = CharacterCount(count: nat, isExceeded: bool, remaining: int)

  /** `useCharacterCount(text, maxLength)`: the length in UTF-16 code units,
      whether it is over the limit, and how many units are left. */
  function UseCharacterCount(text: string, maxLength: int): (c: CharacterCount)
    ensures c.count == Length(text)
    ensures c.isExceeded <==> c.count > maxLength
    ensures c.remaining >= 0
    ensures c.remaining >= maxLength - c.count
    ensures c.isExceeded ==> c.remaining == 0
    ensures maxLength >= 0 && !c.isExceeded ==> c.count + c.remaining == maxLength
  {
    var len := Length(text);
    CharacterCount(len, len > maxLength, if maxLength - len > 0 then maxLength - len else 0)
  }

  /** The counters for the three fields, with the server's limits, flag
      exactly the values the server refuses as too long. */
  lemma CounterAgreesWithServer(p: BlessingRequest)
    requires FieldsPresent(p)
    ensures WithinLimits(p) <==>
              && !UseCharacterCount(p.blessingText.value, MaxBlessingText).isExceeded
              && !UseCharacterCount(p.codePhrase.value, MaxCodePhrase).isExceeded
              && (Truthy(p.optionalNote) ==>
                    !UseCharacterCount(p.optionalNote.value, MaxOptionalNote).isExceeded)
  {
  }

  /** `usePIIDetection(text)`: the names of the matching patterns, tested in
      the same order as on the server, and whether there are any. */
  method UsePiiDetection(text: string) returns (isPii: bool, detectedPatterns: seq<PatternName>)
    ensures detectedPatterns == MatchingNames(PatternOrder, text)
    ensures isPii <==> detectedPatterns != []
    ensures isPii <==> exists name :: Matches(name, text)
    ensures Subsequence(detectedPatterns, PatternOrder) && Distinct(detectedPatterns)
  {
    var detected := DetectPatterns(text);
    ScanSpec(text);
    detectedPatterns := detected;
    isPii := |detected| > 0;
  }

  /** Whatever the hook flags in one field of the form, the server flags in
      the text it checks: the fields are joined with spaces, which are not
      word characters, so every match survives. */
  lemma ClientFlagImpliesServerFlag(p: BlessingRequest, name: PatternName)
    requires FieldsPresent(p)
    requires || Matches(name, p.blessingText.value)
             || Matches(name, p.codePhrase.value)
             || (Truthy(p.optionalNote) && Matches(name, p.optionalNote.value))
    ensures Matches(name, TextToCheck(p))
    ensures name in MatchingNames(PatternOrder, TextToCheck(p))
  {
    var b, c, n := p.blessingText.value, p.codePhrase.value, OrElse(p.optionalNote, "");
    var text := TextToCheck(p);
    if Matches(name, b) {
      assert text == [] + b + (" " + c + " " + n);
      Embed(name, [], b, " " + c + " " + n);
    } else if Matches(name, c) {
      assert text == (b + " ") + c + (" " + n);
      Embed(name, b + " ", c, " " + n);
    } else {
      assert text == (b + " " + c + " ") + n + [];
      Embed(name, b + " " + c + " ", n, []);
    }
    ScanSpec(text);
  }

  /** The converse fails: a "+852" number split over the blessing and the
      code phrase is flagged by the server but by neither field alone. The
      '+' follows a letter, so the `\b` in front of it is there. */
  lemma ServerSeesAcrossFields()
    ensures var p := BlessingRequest(Some("k"), None, Some("a+852 1234"), Some("5678"), None, None);
            && FieldsPresent(p)
            && !Matches(PhoneHk, p.blessingText.value)
            && !Matches(PhoneHk, p.codePhrase.value)
            && Matches(PhoneHk, TextToCheck(p))
  {
    var p := BlessingRequest(Some("k"), None, Some("a+852 1234"), Some("5678"), None, None);
    SplitNumberFieldsUnflagged();
    assert TextToCheck(p) == "a" + "+852 1234 5678" + " ";
    SplitNumberJoinFlagged();
  }

  lemma SplitNumberFieldsUnflagged()
    ensures !PhoneHkAsWritten("a+852 1234") && !PhoneHkAsWritten("5678")
  {
    var b := "a+852 1234";
    forall i, j | 0 <= i <= j <= |b| && j - i == 8
      ensures !AllDigits(b[i..j])
    {
      var k := if i <= 1 then 1 - i else 5 - i;
      assert b[1] == '+' && b[5] == ' ';
      assert b[i..j][k] == b[i + k];
    }
  }

  lemma SplitNumberJoinFlagged()
    ensures PhoneHkAsWritten("a" + "+852 1234 5678" + " ")
  {
    var m := "+852 1234 5678";
    var t := "a" + m + " ";
    ShiftSlice("a", m, " ", 0, |m|);
    assert m[0..|m|] == m;
    assert m[..4] == "+852";
    assert m[4..] == " 1234 5678";
    assert Bounded(t, 1, 15) && Plus852Shape(t[1..15]);
  }
}
