/** The string operations the datapoint normaliser relies on: strip, lower, the key clean-up
    of its regular expression, and comma-separated lists. */
module TextRules {

  import opened Common

  // -------------------------------------------------------------------- strip

  predicate Space(c: char) {
    c == ' ' || '\t' <= c <= '\r' || '\U{1C}' <= c <= '\U{1F}'
  }

  function StripLeft(s: string): string {
    if s == "" || !Space(s[0]) then s else StripLeft(s[1..])
  }

  function StripRight(s: string): string {
    if s == "" || !Space(Last(s)) then s else StripRight(Front(s))
  }

  function Strip(s: string): string {
    StripRight(StripLeft(s))
  }

  predicate Trimmed(s: string) {
    s == "" || (!Space(s[0]) && !Space(Last(s)))
  }

  lemma {:induction false} StripLeftShortens(s: string)
    ensures |StripLeft(s)| <= |s|
    ensures StripLeft(s) == "" || !Space(StripLeft(s)[0])
    ensures |StripLeft(s)| == |s| ==> StripLeft(s) == s
  {
    if s != "" && Space(s[0]) {
      StripLeftShortens(s[1..]);
    }
  }

  lemma {:induction false} StripRightShortens(s: string)
    ensures |StripRight(s)| <= |s| && StripRight(s) == s[..|StripRight(s)|]
    ensures StripRight(s) == "" || !Space(Last(StripRight(s)))
  {
    if s != "" && Space(Last(s)) {
      StripRightShortens(Front(s));
    }
  }

  /** Stripping leaves exactly the trimmed strings unchanged, and its result is trimmed. */
  lemma StripFixes(s: string)
    ensures Strip(s) == s <==> Trimmed(s)
    ensures Trimmed(Strip(s))
  {
    StripLeftShortens(s);
    StripRightShortens(StripLeft(s));
  }

  lemma {:induction false} StripRightKeeps(s: string)
    requires s != "" && !Space(s[0])
    ensures StripRight(s) != ""
  {
    if Space(Last(s)) {
      StripRightKeeps(Front(s));
    }
  }

  /** A text that starts with something other than a blank is not stripped to nothing, and
      stripping only shortens. */
  lemma StripKeeps(s: string)
    requires s != "" && !Space(s[0])
    ensures Strip(s) != "" && |Strip(s)| <= |s|
  {
    StripRightKeeps(s);
    StripRightShortens(s);
  }

  function Cut(s: string, n: nat): string {
    if |s| <= n then s else s[..n]
  }

  // -------------------------------------------------------------------- lower

  function LowerChar(c: char): char {
    if 'A' <= c <= 'Z' then (c as int + 32) as char else c
  }

  function Lower(s: string): string {
    if s == "" then "" else [LowerChar(s[0])] + Lower(s[1..])
  }

  lemma {:induction false} LowerFixes(s: string)
    requires forall i :: 0 <= i < |s| ==> !('A' <= s[i] <= 'Z')
    ensures Lower(s) == s
  {
    if s != "" {
      LowerFixes(s[1..]);
    }
  }

  function UpperChar(c: char): char {
    if 'a' <= c <= 'z' then (c as int - 32) as char else c
  }

  predicate Letter(c: char) {
    'a' <= c <= 'z' || 'A' <= c <= 'Z'
  }

  /** Underscores become blanks and every letter that follows no letter is raised, any other
      letter lowered. */
  function Titled(s: string, afterLetter: bool): string {
    if s == "" then ""
    else
      var c := if s[0] == '_' then ' ' else s[0];
      [if afterLetter then LowerChar(c) else UpperChar(c)] + Titled(s[1..], Letter(c))
  }

  lemma {:induction false} TitledLength(s: string, afterLetter: bool)
    ensures |Titled(s, afterLetter)| == |s|
  {
    if s != "" {
      TitledLength(s[1..], Letter(if s[0] == '_' then ' ' else s[0]));
    }
  }

  // --------------------------------------------------------------------- keys

  predicate KeyChar(c: char) {
    'a' <= c <= 'z' || '0' <= c <= '9' || c == '_'
  }

  function DropOthers(s: string): string {
    if s == "" || KeyChar(s[0]) then s else DropOthers(s[1..])
  }

  lemma {:induction false} DropOthersShortens(s: string)
    ensures |DropOthers(s)| <= |s|
    ensures s != "" && !KeyChar(s[0]) ==> |DropOthers(s)| < |s|
  {
    if s != "" && !KeyChar(s[0]) {
      DropOthersShortens(s[1..]);
    }
  }

  /** Every run of other characters becomes one underscore. */
  function Substitute(s: string): string
    decreases |s|
  {
    if s == "" then ""
    else if KeyChar(s[0]) then [s[0]] + Substitute(s[1..])
    else DropOthersShortens(s); "_" + Substitute(DropOthers(s))
  }

  function TrimUnderscoresLeft(s: string): string {
    if s == "" || s[0] != '_' then s else TrimUnderscoresLeft(s[1..])
  }

  function TrimUnderscoresRight(s: string): string {
    if s == "" || Last(s) != '_' then s else TrimUnderscoresRight(Front(s))
  }

  function CleanKey(s: string): string {
    TrimUnderscoresRight(TrimUnderscoresLeft(Substitute(Lower(Strip(s)))))
  }

  /** KEY_RE */
  predicate ValidKey(k: string) {
    && 1 <= |k| <= 100 && 'a' <= k[0] <= 'z'
    && forall i :: 0 <= i < |k| ==> KeyChar(k[i])
  }

  lemma {:induction false} SubstituteFixes(s: string)
    requires forall i :: 0 <= i < |s| ==> KeyChar(s[i])
    ensures Substitute(s) == s
  {
    if s != "" {
      SubstituteFixes(s[1..]);
    }
  }

  lemma {:induction false} TrimmedRight(s: string)
    ensures TrimUnderscoresRight(s) == "" || Last(TrimUnderscoresRight(s)) != '_'
  {
    if s != "" && Last(s) == '_' {
      TrimmedRight(Front(s));
    }
  }

  /** A valid key that the clean-up produced is left alone by another clean-up. */
  lemma CleanKeyStable(s: string)
    requires ValidKey(CleanKey(s))
    ensures CleanKey(CleanKey(s)) == CleanKey(s)
  {
    var k := CleanKey(s);
    TrimmedRight(TrimUnderscoresLeft(Substitute(Lower(Strip(s)))));
    assert KeyChar(k[0]) && KeyChar(Last(k));
    StripFixes(k);
    LowerFixes(k);
    SubstituteFixes(k);
  }

  /** What is left after the clean-up: key characters only, and no underscore at either end. */
  lemma CleanKeyShape(s: string)
    ensures forall i :: 0 <= i < |CleanKey(s)| ==> KeyChar(CleanKey(s)[i])
    ensures CleanKey(s) != "" ==> CleanKey(s)[0] != '_' && Last(CleanKey(s)) != '_'
  {
    var substituted := Substitute(Lower(Strip(s)));
    SubstituteShape(Lower(Strip(s)));
    TrimLeftShape(substituted);
    TrimRightShape(TrimUnderscoresLeft(substituted));
  }

  lemma {:induction false} SubstituteShape(s: string)
    ensures forall i :: 0 <= i < |Substitute(s)| ==> KeyChar(Substitute(s)[i])
    decreases |s|
  {
    if s != "" {
      if KeyChar(s[0]) {
        SubstituteShape(s[1..]);
      } else {
        DropOthersShortens(s);
        SubstituteShape(DropOthers(s));
      }
    }
  }

  lemma {:induction false} TrimLeftShape(s: string)
    requires forall i :: 0 <= i < |s| ==> KeyChar(s[i])
    ensures var t := TrimUnderscoresLeft(s);
            (forall i :: 0 <= i < |t| ==> KeyChar(t[i])) && (t != "" ==> t[0] != '_')
  {
    if s != "" && s[0] == '_' {
      TrimLeftShape(s[1..]);
    }
  }

  lemma {:induction false} TrimRightShape(s: string)
    requires forall i :: 0 <= i < |s| ==> KeyChar(s[i])
    ensures var t := TrimUnderscoresRight(s);
            && (forall i :: 0 <= i < |t| ==> KeyChar(t[i])) && (t != "" ==> Last(t) != '_')
            && (t != "" ==> t[0] == s[0])
  {
    if s != "" && Last(s) == '_' {
      TrimRightShape(Front(s));
    }
  }

  // ------------------------------------------------------------------ characters

  const LOWER := "abcdefghijklmnopqrstuvwxyz"
  const UPPER := "ABCDEFGHIJKLMNOPQRSTUVWXYZ"

  /** The two cases of each letter. */
  lemma CasesExactly(i: nat)
    requires i < 26
    ensures LowerChar(UPPER[i]) == LOWER[i] && UpperChar(LOWER[i]) == UPPER[i]
    ensures LowerChar(LOWER[i]) == LOWER[i] && UpperChar(UPPER[i]) == UPPER[i]
    ensures Letter(LOWER[i]) && Letter(UPPER[i])
  {
  }

  /** There are no other letters, and every other character has only itself. */
  lemma LettersExactly(c: char)
    ensures Letter(c) <==> c in LOWER || c in UPPER
    ensures !Letter(c) ==> LowerChar(c) == c && UpperChar(c) == c
  {
    hide LOWER, UPPER;
    SmallLetter(c);
    CapitalLetter(c);
  }

  lemma CapitalLetter(c: char)
    ensures c in UPPER <==> 'A' <= c <= 'Z'
  {
    if 'A' <= c <= 'Z' {
      assert UPPER[c as int - 'A' as int] == c;
    }
  }

  lemma SmallLetter(c: char)
    ensures c in LOWER <==> 'a' <= c <= 'z'
  {
    if 'a' <= c <= 'z' {
      assert LOWER[c as int - 'a' as int] == c;
    }
  }

  lemma Digit(c: char)
    ensures c in "0123456789_" <==> '0' <= c <= '9' || c == '_'
  {
    if '0' <= c <= '9' {
      assert "0123456789_"[c as int - '0' as int] == c;
    }
    assert "0123456789_"[10] == '_';
  }

  /** A valid key: a small letter, then up to 99 small letters, digits and underscores. */
  lemma ValidKeyExactly(k: string)
    ensures ValidKey(k) <==>
            1 <= |k| <= 100 && k[0] in LOWER && forall i :: 0 <= i < |k| ==> k[i] in LOWER || k[i] in "0123456789_"
  {
    forall c ensures c in LOWER || c in "0123456789_" <==> KeyChar(c) {
      SmallLetter(c);
      Digit(c);
    }
    if k != "" {
      SmallLetter(k[0]);
    }
  }

  /** The blanks that strip removes. */
  lemma SpaceExactly(c: char)
    ensures Space(c) <==> c in {' ', '\t', '\n', '\U{0B}', '\U{0C}', '\r', '\U{1C}', '\U{1D}', '\U{1E}', '\U{1F}'}
  {
  }

  /** A key as a title: underscores become blanks, the first letter of each word is raised and every
      other letter lowered. */
  lemma {:induction false} TitledExactly(s: string, afterLetter: bool, i: nat)
    requires i < |s|
    ensures |Titled(s, afterLetter)| == |s|
    ensures var inside := if i == 0 then afterLetter else s[i - 1] != '_' && Letter(s[i - 1]);
            Titled(s, afterLetter)[i] == if s[i] == '_' then ' ' else if inside then LowerChar(s[i]) else UpperChar(s[i])
  {
    TitledLength(s, afterLetter);
    if i > 0 {
      TitledExactly(s[1..], Letter(if s[0] == '_' then ' ' else s[0]), i - 1);
    }
  }

  /** A text is cut to its first characters only if it is longer. */
  lemma CutExactly(s: string, n: nat)
    ensures Cut(s, n) <= s && |Cut(s, n)| == Min(|s|, n)
  {
  }

  // ----------------------------------------------------- comma-separated lists

  function Join(words: seq<string>): string {
    if words == [] then ""
    else if |words| == 1 then words[0]
    else words[0] + "," + Join(words[1..])
  }

  /** str.split(","): never empty. */
  function Split(s: string): (words: seq<string>)
    ensures words != []
  {
    if s == "" then [""]
    else if s[0] == ',' then [""] + Split(s[1..])
    else
      var rest := Split(s[1..]);
      [[s[0]] + rest[0]] + rest[1..]
  }

  /** Split, then strip every word and keep the non-empty ones. */
  function StripWords(words: seq<string>): seq<string> {
    if words == [] then []
    else (if Strip(words[0]) == "" then [] else [Strip(words[0])]) + StripWords(words[1..])
  }

  predicate PlainWord(w: string) {
    w != "" && Trimmed(w) && ',' !in w
  }

  lemma {:induction false} SplitWord(w: string)
    requires ',' !in w
    ensures Split(w) == [w]
  {
    if w != "" {
      assert forall c :: c in w[1..] ==> c in w;
      SplitWord(w[1..]);
      assert [w[0]] + w[1..] == w;
    }
  }

  lemma {:induction false} SplitAfterWord(w: string, rest: string)
    requires ',' !in w
    ensures Split(w + "," + rest) == [w] + Split(rest)
  {
    if w == "" {
      assert (w + "," + rest)[1..] == rest;
    } else {
      assert forall c :: c in w[1..] ==> c in w;
      SplitAfterWord(w[1..], rest);
      assert (w + "," + rest)[1..] == w[1..] + "," + rest;
      assert [w[0]] + w[1..] == w;
    }
  }

  /** Joining plain words with commas and reading the text back returns the words. */
  lemma {:induction false} JoinSplits(words: seq<string>)
    requires forall w :: w in words ==> PlainWord(w)
    ensures StripWords(Split(Join(words))) == words
    ensures words != [] ==> Join(words) != "" 
  {
    if words == [] {
      assert Split("") == [""];
      assert StripWords([""]) == [] by { assert Strip("") == ""; }
    } else {
      var w := words[0];
      assert PlainWord(w);
      StripFixes(w);
      if |words| == 1 {
        SplitWord(w);
        assert words == [w];
      } else {
        assert forall v :: v in words[1..] ==> v in words;
        JoinSplits(words[1..]);
        SplitAfterWord(w, Join(words[1..]));
        assert [w] + words[1..] == words;
      }
    }
  }
}
