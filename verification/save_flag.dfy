/** The `save_predictions` query parameter of the prediction endpoint: a
    string read as a boolean, in any letter case, or a server error. */
module SaveFlag {
  import opened Results

  /** FastAPI's `HTTPException`. */
  datatype HttpError = HttpError(status: int, detail: string)

  const InvalidFlag := HttpError(500, "Error, invalid value for parameter 'save_predictions' provided.")

  /** The default of the parameter. */
  const DefaultFlag := "true"

  /** `str.lower` on one character; only ASCII letters change. */
  function LowerChar(c: char): (d: char)
    ensures 'A' <= c <= 'Z' ==> d as int == c as int + 32
    ensures !('A' <= c <= 'Z') ==> d == c
  {
    if 'A' <= c <= 'Z' then (c as int + 32) as char else c
  }

  function Lower(s: string): (t: string)
    ensures |t| == |s| && forall i :: 0 <= i < |s| ==> t[i] == LowerChar(s[i])
  {
    seq(|s|, i requires 0 <= i < |s| => LowerChar(s[i]))
  }

  /** `save_predictions.lower() in [...]` chain of the endpoint. */
  function ParseSaveFlag(s: string): (r: Result<bool, HttpError>)
    ensures r.Err? ==> r.error == InvalidFlag
  {
    var l := Lower(s);
    if l == "true" || l == "1" then Ok(true)
    else if l == "false" || l == "0" then Ok(false)
    else Err(InvalidFlag)
  }

  /** The upper-case form of a lower-case ASCII letter; anything else is
      its own. */
  function UpperChar(c: char): (d: char)
    ensures 'a' <= c <= 'z' ==> d as int == c as int - 32
  {
    if 'a' <= c <= 'z' then (c as int - 32) as char else c
  }

  /** `s` spells `word` with each letter in either case. */
  predicate Spells(s: string, word: string) {
    |s| == |word| && forall i :: 0 <= i < |s| ==> s[i] == word[i] || s[i] == UpperChar(word[i])
  }

  /** Lower-case ASCII letters and digits. */
  predicate LowerWord(word: string) {
    forall i :: 0 <= i < |word| ==> 'a' <= word[i] <= 'z' || '0' <= word[i] <= '9'
  }

  lemma LowerCharIs(c: char, w: char)
    requires 'a' <= w <= 'z' || '0' <= w <= '9'
    ensures LowerChar(c) == w <==> c == w || c == UpperChar(w)
  {
  }

  /** Lower-casing gives a lower-case word exactly when the string spells it
      in some mixture of cases. */
  lemma LowerIsSpells(s: string, word: string)
    requires LowerWord(word)
    ensures Lower(s) == word <==> Spells(s, word)
  {
    if |s| == |word| {
      forall i | 0 <= i < |s|
        ensures LowerChar(s[i]) == word[i] <==> s[i] == word[i] || s[i] == UpperChar(word[i])
      {
        LowerCharIs(s[i], word[i]);
      }
      if Spells(s, word) {
        assert Lower(s) == word;
      }
    }
  }

  /** The flag is true for "true" in any letter case and for "1", false for
      "false" in any letter case and for "0", and every other string is
      refused with status 500. */
  lemma ParseSaveFlagCases(s: string)
    ensures ParseSaveFlag(s) == Ok(true) <==> Spells(s, "true") || s == "1"
    ensures ParseSaveFlag(s) == Ok(false) <==> Spells(s, "false") || s == "0"
    ensures ParseSaveFlag(s).Err? <==> !(Spells(s, "true") || s == "1" || Spells(s, "false") || s == "0")
  {
    LowerIsSpells(s, "true");
    LowerIsSpells(s, "1");
    LowerIsSpells(s, "false");
    LowerIsSpells(s, "0");
    assert Spells(s, "1") <==> s == "1" by {
      if Spells(s, "1") { assert s == "1"; }
    }
    assert Spells(s, "0") <==> s == "0" by {
      if Spells(s, "0") { assert s == "0"; }
    }
  }

  /** Two strings that differ only in letter case parse alike. */
  lemma CaseDoesNotMatter(s: string, t: string)
    requires |s| == |t| && forall i :: 0 <= i < |s| ==> LowerChar(s[i]) == LowerChar(t[i])
    ensures ParseSaveFlag(s) == ParseSaveFlag(t)
  {
    assert Lower(s) == Lower(t);
  }

  /** The default value and its upper-case spelling save. */
  lemma DefaultSaves()
    ensures ParseSaveFlag(DefaultFlag) == Ok(true)
    ensures ParseSaveFlag("TRUE") == Ok(true)
  {
    assert Lower("TRUE") == "true";
    assert Lower(DefaultFlag) == "true";
  }
}
