/** Names made into identifiers: the task slug and the task id
    (app/macos/Sources/EventLoopQueueCore/QueueClient.swift). */
module TaskSlug {
  import opened Prelude
  import opened Text

  /** What the program takes from Unicode. */
  datatype Alphabet = Alphabet(
    lower: char -> string,
    isWhitespace: char -> bool,
    isLetterOrNumber: char -> bool)

  predicate IsSlugLetter(c: char) {
    '0' <= c <= '9' || 'a' <= c <= 'z'
  }

  /** Lower case letters stay as they are, and neither they nor the separators are blanks. */
  ghost predicate Sane(alphabet: Alphabet) {
    && (forall c, d :: d in alphabet.lower(c) ==> alphabet.lower(d) == [d])
    && (forall c :: IsSlugLetter(c) || c == '-' || c == '_' ==> alphabet.lower(c) == [c] && !alphabet.isWhitespace(c))
    && (forall c :: IsSlugLetter(c) ==> alphabet.isLetterOrNumber(c))
    && !alphabet.isLetterOrNumber('_')
  }

  // ---------------------------------------------------------------- words

  /** The non-empty pieces of `word + s` between separators, where `word` holds none. */
  function Words(s: string, sep: char, word: string): seq<string> {
    if s == "" then (if word == "" then [] else [word])
    else if s[0] != sep then Words(s[1..], sep, word + [s[0]])
    else if word == "" then Words(s[1..], sep, "")
    else [word] + Words(s[1..], sep, "")
  }

  function Join(words: seq<string>, sep: char): string {
    if words == [] then "" else if |words| == 1 then words[0] else words[0] + [sep] + Join(words[1..], sep)
  }

  predicate IsWord(word: string, sep: char) {
    word != "" && sep !in word
  }

  /** No separator at either end, no two in a row. */
  predicate Normal(s: string, sep: char) {
    && (s != "" ==> s[0] != sep && s[|s| - 1] != sep)
    && forall i :: 0 <= i < |s| - 1 ==> !(s[i] == sep && s[i + 1] == sep)
  }

  lemma {:induction false} WordsAreWords(s: string, sep: char, word: string)
    requires sep !in word
    ensures forall w :: w in Words(s, sep, word) ==> IsWord(w, sep)
  {
    if s != "" {
      WordsAreWords(s[1..], sep, if s[0] != sep then word + [s[0]] else "");
    }
  }

  lemma {:induction false} WordsAfterWord(w: string, rest: string, sep: char, word: string)
    requires sep !in w
    ensures Words(w + rest, sep, word) == Words(rest, sep, word + w)
  {
    if w == "" {
      assert w + rest == rest && word + w == word;
    } else {
      assert (w + rest)[1..] == w[1..] + rest;
      WordsAfterWord(w[1..], rest, sep, word + [w[0]]);
      assert word + [w[0]] + w[1..] == word + w;
    }
  }

  /** Splitting undoes joining. */
  lemma {:induction false} WordsOfJoin(words: seq<string>, sep: char)
    requires forall w :: w in words ==> IsWord(w, sep)
    ensures Words(Join(words, sep), sep, "") == words
  {
    if words != [] {
      var tail := if |words| == 1 then "" else [sep] + Join(words[1..], sep);
      assert words[0] in words && Join(words, sep) == words[0] + tail;
      WordsAfterWord(words[0], tail, sep, "");
      assert "" + words[0] == words[0];
      if |words| > 1 {
        assert tail[1..] == Join(words[1..], sep);
        WordsOfJoin(words[1..], sep);
      }
    }
  }

  /** Joining undoes splitting, on a text without needless separators. */
  lemma {:induction false} JoinOfWords(s: string, sep: char, word: string)
    requires sep !in word && (s != "" ==> s[|s| - 1] != sep && (s[0] == sep ==> word != ""))
    requires forall i :: 0 <= i < |s| - 1 ==> !(s[i] == sep && s[i + 1] == sep)
    ensures Join(Words(s, sep, word), sep) == word + s
  {
    if s != "" {
      if s[0] != sep {
        JoinOfWords(s[1..], sep, word + [s[0]]);
      } else {
        JoinOfWords(s[1..], sep, "");
      }
    }
  }

  lemma {:induction false} JoinIsNormal(words: seq<string>, sep: char)
    requires forall w :: w in words ==> IsWord(w, sep)
    ensures Normal(Join(words, sep), sep)
    ensures words != [] ==> Join(words, sep) != ""
    ensures forall c :: c in Join(words, sep) ==> c == sep || exists w :: w in words && c in w
  {
    if |words| == 1 {
      assert words[0] in words;
    } else if |words| > 1 {
      JoinIsNormal(words[1..], sep);
      assert words[0] in words && words[1..][0] in words[1..];
    }
  }

  // ---------------------------------------------------------------- the slug

  /** Which characters of a lowered name count, and blanks as dashes. */
  function Marks(alphabet: Alphabet, s: string): string {
    if s == "" then ""
    else if alphabet.isWhitespace(s[0]) then "-" + Marks(alphabet, s[1..])
    else if IsSlugLetter(s[0]) || s[0] == '-' then [s[0]] + Marks(alphabet, s[1..])
    else Marks(alphabet, s[1..])
  }

  /** The words of a name: runs of letters and digits, parted by blanks or dashes and by
      nothing else. */
  function NameWords(alphabet: Alphabet, name: string): seq<string> {
    Words(Marks(alphabet, Lowered(alphabet.lower, name)), '-', "")
  }

  function Slug(alphabet: Alphabet, name: string): string {
    Join(NameWords(alphabet, name), '-')
  }

  predicate IsSlug(s: string) {
    Normal(s, '-') && forall c :: c in s ==> IsSlugLetter(c) || c == '-'
  }

  /** One run of blanks becomes one dash; `after` tells that the last character was a blank. */
  function Dashed(alphabet: Alphabet, s: string, after: bool): string {
    if s == "" then ""
    else if !alphabet.isWhitespace(s[0]) then [s[0]] + Dashed(alphabet, s[1..], false)
    else if after then Dashed(alphabet, s[1..], true)
    else "-" + Dashed(alphabet, s[1..], true)
  }

  function Scalars(s: string): string {
    if s == "" then ""
    else if s[0] == '-' || IsSlugLetter(s[0]) then [s[0]] + Scalars(s[1..])
    else Scalars(s[1..])
  }

  /** `replacingOccurrences(of: "--", with: "-")` */
  function ReplacePairs(s: string): string {
    if |s| < 2 then s
    else if s[0] == '-' && s[1] == '-' then "-" + ReplacePairs(s[2..])
    else [s[0]] + ReplacePairs(s[1..])
  }

  predicate HasPair(s: string) {
    exists i :: 0 <= i < |s| - 1 && s[i] == '-' && s[i + 1] == '-'
  }

  predicate OnlySlugChars(s: string) {
    forall c :: c in s ==> IsSlugLetter(c) || c == '-'
  }

  method SlugifyTaskName(alphabet: Alphabet, name: string) returns (slug: string)
    requires Sane(alphabet)
    ensures IsSlug(slug) && slug == Slug(alphabet, name)
  {
    var lowered := Lowered(alphabet.lower, name);
    var dashed := DashBlanks(alphabet, lowered);
    var scalars := KeepScalars(dashed);
    slug := Trim(scalars);
    ScanKeepsWords(alphabet, lowered, false, "");
    JoinOfWords(slug, '-', "");
  }

  /** What one more character adds in front of what is still to come. */
  lemma DashedNext(alphabet: Alphabet, dashed: string, s: string, i: nat, after: bool)
    requires i < |s|
    ensures dashed + Dashed(alphabet, s[i..], after) ==
            if !alphabet.isWhitespace(s[i]) then (dashed + [s[i]]) + Dashed(alphabet, s[i + 1..], false)
            else if after then dashed + Dashed(alphabet, s[i + 1..], true)
            else (dashed + "-") + Dashed(alphabet, s[i + 1..], true)
  {
    assert s[i..][1..] == s[i + 1..];
    Assoc(dashed, if alphabet.isWhitespace(s[i]) then "-" else [s[i]],
          Dashed(alphabet, s[i + 1..], alphabet.isWhitespace(s[i])));
  }

  method DashBlanks(alphabet: Alphabet, lowered: string) returns (dashed: string)
    ensures dashed == Dashed(alphabet, lowered, false)
  {
    var lastWasSpace := false;
    dashed := "";
    for i := 0 to |lowered|
      invariant dashed + Dashed(alphabet, lowered[i..], lastWasSpace) == Dashed(alphabet, lowered, false)
    {
      DashedNext(alphabet, dashed, lowered, i, lastWasSpace);
      if alphabet.isWhitespace(lowered[i]) {
        if !lastWasSpace {
          dashed := dashed + "-";
          lastWasSpace := true;
        }
      } else {
        dashed := dashed + [lowered[i]];
        lastWasSpace := false;
      }
    }
  }

  method KeepScalars(dashed: string) returns (scalars: string)
    ensures scalars == Scalars(dashed) && OnlySlugChars(scalars)
  {
    scalars := "";
    for i := 0 to |dashed|
      invariant scalars + Scalars(dashed[i..]) == Scalars(dashed) && OnlySlugChars(scalars)
    {
      assert dashed[i..][1..] == dashed[i + 1..];
      if dashed[i] == '-' || IsSlugLetter(dashed[i]) {
        scalars := scalars + [dashed[i]];
      }
    }
  }

  method Trim(given: string) returns (s: string)
    requires OnlySlugChars(given)
    ensures IsSlug(s) && Words(s, '-', "") == Words(given, '-', "")
  {
    s := given;
    while HasPair(s)
      invariant OnlySlugChars(s) && Words(s, '-', "") == Words(given, '-', "")
      decreases |s|
    {
      ReplaceShrinks(s);
      ReplaceKeepsWords(s, "");
      s := ReplacePairs(s);
    }
    while |s| > 0 && s[0] == '-'
      invariant OnlySlugChars(s) && !HasPair(s) && Words(s, '-', "") == Words(given, '-', "")
    {
      s := s[1..];
    }
    while |s| > 0 && s[|s| - 1] == '-'
      invariant OnlySlugChars(s) && !HasPair(s) && Words(s, '-', "") == Words(given, '-', "")
      invariant |s| > 0 ==> s[0] != '-'
    {
      assert s == s[..|s| - 1] + "-";
      TrailingDash(s[..|s| - 1], "");
      s := s[..|s| - 1];
    }
  }

  lemma {:induction false} TrailingDash(s: string, word: string)
    requires '-' !in word
    ensures Words(s + "-", '-', word) == Words(s, '-', word)
  {
    if s == "" {
      assert s + "-" == "-";
      assert "-"[1..] == "";
    } else {
      assert (s + "-")[1..] == s[1..] + "-";
      TrailingDash(s[1..], if s[0] != '-' then word + [s[0]] else "");
    }
  }

  /** Each replacement while there is a pair shortens the text, so the loop ends. */
  lemma {:induction false} ReplaceShrinks(s: string)
    ensures |ReplacePairs(s)| <= |s|
    ensures HasPair(s) ==> |ReplacePairs(s)| < |s|
    ensures OnlySlugChars(s) ==> OnlySlugChars(ReplacePairs(s))
  {
    if |s| >= 2 {
      if s[0] == '-' && s[1] == '-' {
        ReplaceShrinks(s[2..]);
      } else {
        ReplaceShrinks(s[1..]);
        if HasPair(s) {
          var i :| 0 <= i < |s| - 1 && s[i] == '-' && s[i + 1] == '-';
          assert s[1..][i - 1] == '-' && s[1..][i] == '-';
        }
      }
    }
  }

  lemma {:induction false} ReplaceKeepsWords(s: string, word: string)
    ensures Words(ReplacePairs(s), '-', word) == Words(s, '-', word)
    decreases |s|
  {
    if |s| >= 2 {
      if s[0] == '-' && s[1] == '-' {
        ReplaceKeepsWords(s[2..], "");
        assert ReplacePairs(s)[1..] == ReplacePairs(s[2..]);
        assert s[1..][1..] == s[2..];
      } else {
        ReplaceKeepsWords(s[1..], if s[0] == '-' then "" else word + [s[0]]);
        assert ReplacePairs(s)[1..] == ReplacePairs(s[1..]);
      }
    }
  }

  /** Squeezing blanks and dropping other characters leaves the words as they are. */
  lemma {:induction false} ScanKeepsWords(alphabet: Alphabet, s: string, after: bool, word: string)
    requires Sane(alphabet) && (after ==> word == "")
    ensures Words(Scalars(Dashed(alphabet, s, after)), '-', word) == Words(Marks(alphabet, s), '-', word)
    decreases |s|
  {
    if s != "" {
      var rest := s[1..];
      if alphabet.isWhitespace(s[0]) {
        ScanKeepsWords(alphabet, rest, true, "");
        if !after {
          assert Dashed(alphabet, s, after)[1..] == Dashed(alphabet, rest, true);
        }
      } else {
        assert Dashed(alphabet, s, after)[1..] == Dashed(alphabet, rest, false);
        ScanKeepsWords(alphabet, rest, false,
                       if s[0] == '-' then "" else if IsSlugLetter(s[0]) then word + [s[0]] else word);
      }
    }
  }

  lemma {:induction false} MarksAreSlugChars(alphabet: Alphabet, s: string)
    ensures OnlySlugChars(Marks(alphabet, s))
  {
    if s != "" {
      MarksAreSlugChars(alphabet, s[1..]);
    }
  }

  lemma {:induction false} WordChars(s: string, sep: char, word: string)
    ensures forall w, c :: w in Words(s, sep, word) && c in w ==> c in s || c in word
  {
    if s != "" {
      WordChars(s[1..], sep, if s[0] != sep then word + [s[0]] else "");
    }
  }

  lemma {:induction false} SlugReadsItself(alphabet: Alphabet, s: string)
    requires Sane(alphabet) && OnlySlugChars(s)
    ensures Lowered(alphabet.lower, s) == s && Marks(alphabet, s) == s
  {
    LoweredIsSame(alphabet.lower, s);
    if s != "" {
      assert s[0] in s && forall c :: c in s[1..] ==> c in s;
      SlugReadsItself(alphabet, s[1..]);
    }
  }

  lemma SlugIsSlug(alphabet: Alphabet, name: string)
    ensures IsSlug(Slug(alphabet, name))
  {
    var marks := Marks(alphabet, Lowered(alphabet.lower, name));
    MarksAreSlugChars(alphabet, Lowered(alphabet.lower, name));
    WordsAreWords(marks, '-', "");
    WordChars(marks, '-', "");
    JoinIsNormal(NameWords(alphabet, name), '-');
  }

  lemma SlugChars(c: char)
    ensures IsSlugLetter(c) <==> c in "0123456789abcdefghijklmnopqrstuvwxyz"
  {
  }

  /** What a slug looks like: digits, lower case letters and single dashes between them. */
  lemma SlugLooks(alphabet: Alphabet, name: string)
    ensures var slug := Slug(alphabet, name);
            && (forall c :: c in slug ==> c in "0123456789abcdefghijklmnopqrstuvwxyz-")
            && (|slug| > 0 ==> slug[0] != '-' && slug[|slug| - 1] != '-')
            && forall i :: 1 <= i < |slug| ==> slug[i - 1] != '-' || slug[i] != '-'
  {
    var slug := Slug(alphabet, name);
    SlugIsSlug(alphabet, name);
    forall c | c in slug
      ensures c in "0123456789abcdefghijklmnopqrstuvwxyz-"
    {
      SlugChars(c);
    }
    forall i | 1 <= i < |slug|
      ensures slug[i - 1] != '-' || slug[i] != '-'
    {
      var j := i - 1;
      assert !(slug[j] == '-' && slug[j + 1] == '-');
    }
  }

  /** And each of those digits and letters is a slug by itself. */
  lemma LettersStay(alphabet: Alphabet, c: char)
    requires Sane(alphabet) && c in "0123456789abcdefghijklmnopqrstuvwxyz"
    ensures Slug(alphabet, [c]) == [c]
  {
    SlugChars(c);
    SlugFixedPoints(alphabet, [c]);
  }

  /** The slugs are exactly the names that slugging leaves alone, so slugging again changes
      nothing. */
  lemma SlugFixedPoints(alphabet: Alphabet, name: string)
    requires Sane(alphabet)
    ensures Slug(alphabet, name) == name <==> IsSlug(name)
    ensures Slug(alphabet, Slug(alphabet, name)) == Slug(alphabet, name)
  {
    SlugIsSlug(alphabet, name);
    forall slug | IsSlug(slug)
      ensures Slug(alphabet, slug) == slug
    {
      SlugReadsItself(alphabet, slug);
      JoinOfWords(slug, '-', "");
    }
  }

  /** Two names share a slug exactly when they have the same words. */
  lemma SlugsCollide(alphabet: Alphabet, a: string, b: string)
    ensures Slug(alphabet, a) == Slug(alphabet, b) <==> NameWords(alphabet, a) == NameWords(alphabet, b)
  {
    WordsAreWords(Marks(alphabet, Lowered(alphabet.lower, a)), '-', "");
    WordsAreWords(Marks(alphabet, Lowered(alphabet.lower, b)), '-', "");
    WordsOfJoin(NameWords(alphabet, a), '-');
    WordsOfJoin(NameWords(alphabet, b), '-');
  }

  // ---------------------------------------------------------------- the task id

  const TASK := "task"
  const MAX_WORDS := 8

  function Underscored(alphabet: Alphabet, s: string): string {
    if s == "" then ""
    else [if alphabet.isLetterOrNumber(s[0]) then s[0] else '_'] + Underscored(alphabet, s[1..])
  }

  function IdWords(alphabet: Alphabet, raw: string): seq<string> {
    Words(Underscored(alphabet, Lowered(alphabet.lower, raw)), '_', "")
  }

  function FirstWords(words: seq<string>): seq<string> {
    if |words| <= MAX_WORDS then words else words[..MAX_WORDS]
  }

  function NormalizedTaskId(alphabet: Alphabet, raw: string): Option<string> {
    var collapsed := Join(FirstWords(IdWords(alphabet, raw)), '_');
    if collapsed == "" then None
    else if TASK + "_" <= collapsed then Some(collapsed)
    else Some(TASK + "_" + collapsed)
  }

  /** The words of the id made from the words of a name. */
  function Named(words: seq<string>): seq<string> {
    if |words| > 1 && words[0] == TASK then FirstWords(words) else [TASK] + FirstWords(words)
  }

  predicate IsIdChar(alphabet: Alphabet, c: char) {
    alphabet.isLetterOrNumber(c) && alphabet.lower(c) == [c]
  }

  predicate AreIdWords(alphabet: Alphabet, words: seq<string>) {
    forall w :: w in words ==> IsWord(w, '_') && forall c :: c in w ==> IsIdChar(alphabet, c)
  }

  lemma {:induction false} LoweredIsLower(alphabet: Alphabet, s: string)
    requires Sane(alphabet)
    ensures forall c :: c in Lowered(alphabet.lower, s) ==> alphabet.lower(c) == [c]
  {
    if s != "" {
      LoweredIsLower(alphabet, s[1..]);
    }
  }

  lemma {:induction false} UnderscoredChars(alphabet: Alphabet, s: string)
    requires forall c :: c in s ==> alphabet.lower(c) == [c]
    ensures forall c :: c in Underscored(alphabet, s) ==> c == '_' || IsIdChar(alphabet, c)
  {
    if s != "" {
      assert s[0] in s && forall c :: c in s[1..] ==> c in s;
      UnderscoredChars(alphabet, s[1..]);
    }
  }

  lemma IdWordsMeaning(alphabet: Alphabet, raw: string)
    requires Sane(alphabet)
    ensures AreIdWords(alphabet, IdWords(alphabet, raw))
  {
    var lowered := Lowered(alphabet.lower, raw);
    LoweredIsLower(alphabet, raw);
    UnderscoredChars(alphabet, lowered);
    WordsAreWords(Underscored(alphabet, lowered), '_', "");
    WordChars(Underscored(alphabet, lowered), '_', "");
  }

  lemma {:induction false} IdReadsItself(alphabet: Alphabet, s: string)
    requires Sane(alphabet) && forall c :: c in s ==> c == '_' || IsIdChar(alphabet, c)
    ensures Lowered(alphabet.lower, s) == s && Underscored(alphabet, s) == s
  {
    LoweredIsSame(alphabet.lower, s);
    if s != "" {
      assert s[0] in s && forall c :: c in s[1..] ==> c in s;
      IdReadsItself(alphabet, s[1..]);
    }
  }

  lemma IdWordsOfJoin(alphabet: Alphabet, words: seq<string>)
    requires Sane(alphabet) && AreIdWords(alphabet, words)
    ensures IdWords(alphabet, Join(words, '_')) == words
  {
    JoinIsNormal(words, '_');
    IdReadsItself(alphabet, Join(words, '_'));
    WordsOfJoin(words, '_');
  }

  lemma StartsWithTask(words: seq<string>)
    requires words != [] && forall w :: w in words ==> IsWord(w, '_')
    ensures TASK + "_" <= Join(words, '_') <==> |words| > 1 && words[0] == TASK
  {
    var joined := Join(words, '_');
    assert words[0] in words;
    assert words[0] <= joined;
    if TASK + "_" <= joined {
      assert joined[4] == '_' && joined[..4] == TASK;
      assert |words[0]| <= 4;
      assert |words| > 1;
      assert joined[|words[0]|] == '_';
      assert joined[..|words[0]|] == words[0];
    }
  }

  /** A task id is the word `task` and the first words of the name; a name without letters or
      digits has none. */
  lemma TaskIdMeaning(alphabet: Alphabet, raw: string)
    requires Sane(alphabet)
    ensures NormalizedTaskId(alphabet, raw) ==
            if IdWords(alphabet, raw) == [] then None else Some(Join(Named(IdWords(alphabet, raw)), '_'))
  {
    var words := IdWords(alphabet, raw);
    IdWordsMeaning(alphabet, raw);
    if words != [] {
      var first := FirstWords(words);
      assert forall w :: w in first ==> w in words;
      JoinIsNormal(first, '_');
      StartsWithTask(first);
      assert ([TASK] + first)[1..] == first;
    }
  }

  lemma NamedAreIdWords(alphabet: Alphabet, words: seq<string>)
    requires Sane(alphabet) && AreIdWords(alphabet, words)
    ensures AreIdWords(alphabet, Named(words))
  {
  }

  /** Normalising an id again leaves it alone exactly when the name had fewer than eight words
      or began with `task`: otherwise the added word pushes the last one out. A second
      normalisation is always final. */
  lemma TaskIdIsStable(alphabet: Alphabet, raw: string)
    requires Sane(alphabet) && NormalizedTaskId(alphabet, raw).Some?
    ensures var (id, words) := (NormalizedTaskId(alphabet, raw), IdWords(alphabet, raw));
            NormalizedTaskId(alphabet, id.value) == id <==> |words| < 8 || words[0] == "task"
    ensures var again := NormalizedTaskId(alphabet, NormalizedTaskId(alphabet, raw).value);
            again.Some? && NormalizedTaskId(alphabet, again.value) == again
  {
    var words := IdWords(alphabet, raw);
    IdWordsMeaning(alphabet, raw);
    TaskIdMeaning(alphabet, raw);
    RenamedId(alphabet, words);
    RenamedId(alphabet, Named(words));
    NamedTwice(words);
    if Named(Named(words)) != Named(words) {
      NamedAreIdWords(alphabet, words);
      NamedAreIdWords(alphabet, Named(words));
      WordsOfJoin(Named(words), '_');
      WordsOfJoin(Named(Named(words)), '_');
    }
  }

  lemma RenamedId(alphabet: Alphabet, words: seq<string>)
    requires Sane(alphabet) && AreIdWords(alphabet, words) && words != []
    ensures NormalizedTaskId(alphabet, Join(Named(words), '_')) == Some(Join(Named(Named(words)), '_'))
    ensures AreIdWords(alphabet, Named(words)) && Named(words) != []
  {
    NamedAreIdWords(alphabet, words);
    IdWordsOfJoin(alphabet, Named(words));
    TaskIdMeaning(alphabet, Join(Named(words), '_'));
  }

  lemma NamedTwice(words: seq<string>)
    requires words != []
    ensures Named(Named(words)) == Named(words) <==> |words| < MAX_WORDS || words[0] == TASK
    ensures Named(Named(Named(words))) == Named(Named(words))
  {
  }
}
