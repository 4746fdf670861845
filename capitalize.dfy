/** `capitalize` and `capitalizeWords`. Upper-casing follows `toUpperCase` on
    ASCII: only `a`..`z` change; every other character is left as it is. */
module StringCapitalize {

  /** The characters `toUpperCase` changes here: ASCII `a`..`z`, each 32 code
      points above its upper-case form. */
  predicate IsLowerAscii(c: char): (l: bool)
    ensures l ==> c as int < 128
    ensures l <==> 'A' as int + 32 <= c as int <= 'Z' as int + 32
    ensures c == 'A' || c == 'Z' || c == '_' || c == '0' ==> !l
  {
    'a' <= c <= 'z'
  }

  /** The regular-expression class `\w`: `[A-Za-z0-9_]`. */
  predicate IsWordChar(c: char): (w: bool)
    ensures w ==> c as int < 128
    ensures IsLowerAscii(c) || c == '_' ==> w
    ensures c == ' ' || c == '-' || c == '.' ==> !w
  {
    'A' <= c <= 'Z' || 'a' <= c <= 'z' || '0' <= c <= '9' || c == '_'
  }

  /** `c.toUpperCase()` on one ASCII character. */
  function ToUpper(c: char): (u: char)
    ensures !IsLowerAscii(u)
    ensures !IsLowerAscii(c) ==> u == c
    ensures IsLowerAscii(c) ==> 'A' <= u <= 'Z' && u as int == c as int - 32
  {
    if IsLowerAscii(c) then (c as int - 32) as char else c
  }

  /** Upper-casing keeps a character in or out of `\w`, and is idempotent. */
  lemma ToUpperKeepsWordClass(c: char)
    ensures IsWordChar(ToUpper(c)) == IsWordChar(c)
    ensures ToUpper(ToUpper(c)) == ToUpper(c)
  {
  }

  /** `capitalize(str)`: the empty string as it is, otherwise
      `str.charAt(0).toUpperCase() + str.slice(1)`. */
  function Capitalize(s: string): (r: string)
    ensures |r| == |s|
    ensures s == [] ==> r == []
    ensures s != [] ==> r[0] == ToUpper(s[0])
    ensures forall i :: 1 <= i < |s| ==> r[i] == s[i]
  {
    if |s| == 0 then s else [ToUpper(s[0])] + s[1..]
  }

  /** Capitalizing twice is capitalizing once. */
  lemma CapitalizeIdempotent(s: string)
    ensures Capitalize(Capitalize(s)) == Capitalize(s)
  {
  }

  /** Position `i` matches `\b\w`: a word character that starts the string or
      follows a non-word character. */
  predicate AtWordStart(s: string, i: int): (start: bool)
    requires 0 <= i < |s|
    ensures start ==> IsWordChar(s[i])
    ensures i == 0 ==> start == IsWordChar(s[0])
    ensures 0 < i && IsWordChar(s[i - 1]) ==> !start
  {
    IsWordChar(s[i]) && (i == 0 || !IsWordChar(s[i - 1]))
  }

  /** `str.replace(/\b\w/g, char => char.toUpperCase())`. */
  function CapitalizeWords(s: string): (r: string)
    ensures |r| == |s|
  {
    CapitalizeWordsAfter(false, s)
  }

  /** The replacement scan over `s`, where `afterWord` says whether the
      character before `s` was a word character. */
  function CapitalizeWordsAfter(afterWord: bool, s: string): (r: string)
    ensures |r| == |s|
    decreases |s|
  {
    if s == [] then []
    else
      var c := if !afterWord && IsWordChar(s[0]) then ToUpper(s[0]) else s[0];
      [c] + CapitalizeWordsAfter(IsWordChar(s[0]), s[1..])
  }

  lemma {:induction false} CapitalizeWordsAfterAt(afterWord: bool, s: string, i: int)
    requires 0 <= i < |s|
    ensures CapitalizeWordsAfter(afterWord, s)[i]
         == if IsWordChar(s[i]) && (if i == 0 then !afterWord else !IsWordChar(s[i - 1]))
            then ToUpper(s[i]) else s[i]
    decreases |s|
  {
    if i > 0 {
      CapitalizeWordsAfterAt(IsWordChar(s[0]), s[1..], i - 1);
    }
  }

  /** Every character at a word start is upper-cased and every other character
      is left unchanged. */
  lemma CapitalizeWordsAt(s: string)
    ensures |CapitalizeWords(s)| == |s|
    ensures forall i :: 0 <= i < |s| ==>
              CapitalizeWords(s)[i] == if AtWordStart(s, i) then ToUpper(s[i]) else s[i]
  {
    forall i | 0 <= i < |s|
      ensures CapitalizeWords(s)[i] == if AtWordStart(s, i) then ToUpper(s[i]) else s[i]
    {
      CapitalizeWordsAfterAt(false, s, i);
    }
  }

  /** `capitalizeWords` keeps the word starts where they were. */
  lemma CapitalizeWordsKeepsWordStarts(s: string)
    ensures forall i :: 0 <= i < |s| ==> AtWordStart(CapitalizeWords(s), i) == AtWordStart(s, i)
  {
    CapitalizeWordsAt(s);
    forall i | 0 <= i < |s|
      ensures IsWordChar(CapitalizeWords(s)[i]) == IsWordChar(s[i])
    {
      ToUpperKeepsWordClass(s[i]);
    }
  }

  /** Capitalizing words twice is capitalizing them once. */
  lemma CapitalizeWordsIdempotent(s: string)
    ensures CapitalizeWords(CapitalizeWords(s)) == CapitalizeWords(s)
  {
    var r := CapitalizeWords(s);
    CapitalizeWordsAt(s);
    CapitalizeWordsAt(r);
    CapitalizeWordsKeepsWordStarts(s);
    forall i | 0 <= i < |s|
      ensures CapitalizeWords(r)[i] == r[i]
    {
      ToUpperKeepsWordClass(s[i]);
    }
  }

  /** The first character of a capitalized-words string is already upper case,
      so `capitalize` has nothing left to do. */
  lemma CapitalizeAfterCapitalizeWords(s: string)
    ensures Capitalize(CapitalizeWords(s)) == CapitalizeWords(s)
  {
  }

  /** The empty string is left empty. */
  lemma CapitalizeWordsEmpty()
    ensures CapitalizeWords("") == ""
  {
  }
}
