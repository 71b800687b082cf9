/** Latin folding and collapsing: one table of letters for slugs and for search. */
module Text {
  import opened Base

  datatype Letters = Transliterate | Lossy

  /**
   The Unicode tables, as far as they matter here: composing and lower-casing, and
   decomposing with combining marks dropped. Both leave plain text as it is.
   */
  datatype Unicode = Unicode(lower: string -> string, decompose: string -> string) {
    ghost predicate KeepsPlain() {
      forall s :: (forall c :: c in s ==> Plain(c)) ==> lower(s) == s && decompose(s) == s
    }
  }

  predicate Keep(c: char) { 'a' <= c <= 'z' || '0' <= c <= '9' }

  /** ASCII that neither folding nor lower-casing changes. */
  predicate Plain(c: char) { Keep(c) || c == '-' || c == ' ' }

  predicate Separator(c: char) { c == '-' || c == ' ' }

  predicate Apostrophe(c: char) { c == '\'' || c == '\U{2019}' || c == '\U{02BC}' || c == '`' }

  function AsciiLower(c: char): char {
    if 'A' <= c <= 'Z' then ((c as int) + 32) as char else c
  }

  /** The letter table. */
  function Letter(c: char, letters: Letters): string {
    match letters
    case Transliterate =>
      if c == '\U{00E6}' || c == '\U{00E4}' then "ae"
      else if c == '\U{00F8}' || c == '\U{00F6}' then "oe"
      else if c == '\U{00E5}' then "aa"
      else OtherLetter(c)
    case Lossy =>
      if c == '\U{00E6}' || c == '\U{00E4}' || c == '\U{00E5}' then "a"
      else if c == '\U{00F8}' || c == '\U{00F6}' then "o"
      else OtherLetter(c)
  }

  function OtherLetter(c: char): string {
    if c == '\U{0111}' then "d"
    else if c == '\U{014B}' then "n"
    else if c == '\U{0167}' then "t"
    else if c == '\U{00DF}' then "ss"
    else [c]
  }

  function Mapped(s: string, letters: Letters): string {
    if s == [] then [] else Mapped(s[..|s| - 1], letters) + Letter(s[|s| - 1], letters)
  }

  function LatinFold(u: Unicode, input: string, letters: Letters): string {
    u.decompose(Mapped(u.lower(input), letters))
  }

  method Fold(u: Unicode, input: string, letters: Letters) returns (out: string)
    ensures out == LatinFold(u, input, letters)
  {
    hide Letter;
    var lower := u.lower(input);
    var mapped := "";
    for i := 0 to |lower|
      invariant mapped == Mapped(lower[..i], letters)
    {
      mapped := mapped + Letter(lower[i], letters);
      assert lower[..i + 1][..i] == lower[..i];
    }
    assert lower[..|lower|] == lower;
    out := u.decompose(mapped);
  }

  /** The letters written out: Norwegian and neighbouring ones first, then Sami ones and the sharp s; all others stay. */
  lemma LetterTable(c: char)
    ensures c in "\U{00E6}\U{00E4}" ==> Letter(c, Transliterate) == "ae" && Letter(c, Lossy) == "a"
    ensures c in "\U{00F8}\U{00F6}" ==> Letter(c, Transliterate) == "oe" && Letter(c, Lossy) == "o"
    ensures c == '\U{00E5}' ==> Letter(c, Transliterate) == "aa" && Letter(c, Lossy) == "a"
    ensures forall l :: (c == '\U{0111}' ==> Letter(c, l) == "d") && (c == '\U{014B}' ==> Letter(c, l) == "n")
                     && (c == '\U{0167}' ==> Letter(c, l) == "t") && (c == '\U{00DF}' ==> Letter(c, l) == "ss")
    ensures c !in "\U{00E6}\U{00E4}\U{00F8}\U{00F6}\U{00E5}\U{0111}\U{014B}\U{0167}\U{00DF}" ==>
              forall l :: Letter(c, l) == [c]
  {
  }

  /** Letter by letter, in order. */
  lemma {:induction false} MappedBoth(a: string, b: string, letters: Letters)
    ensures Mapped(a + b, letters) == Mapped(a, letters) + Mapped(b, letters)
    ensures |b| == 1 ==> Mapped(b, letters) == Letter(b[0], letters)
    decreases |b|
  {
    hide Letter;
    if b == [] {
      assert a + b == a;
    } else {
      assert (a + b)[..|a + b| - 1] == a + b[..|b| - 1];
      MappedBoth(a, b[..|b| - 1], letters);
      if |b| == 1 { assert b[..0] == []; }
    }
  }

  lemma PlainLetter(c: char, letters: Letters)
    requires Plain(c)
    ensures Letter(c, letters) == [c]
  {
  }

  lemma {:induction false} MappedKeepsPlain(s: string, letters: Letters)
    requires forall c :: c in s ==> Plain(c)
    ensures Mapped(s, letters) == s
  {
    hide Letter, Plain;
    if s != [] {
      MappedKeepsPlain(s[..|s| - 1], letters);
      PlainLetter(s[|s| - 1], letters);
    }
  }

  /** Text that is already plain folds to itself, either way. */
  lemma FoldKeepsPlain(u: Unicode, s: string, letters: Letters)
    requires u.KeepsPlain() && forall c :: c in s ==> Plain(c)
    ensures LatinFold(u, s, letters) == s
  {
    MappedKeepsPlain(s, letters);
  }

  /** Folding lowers the case first and decomposes last: each is all it does to text the other steps leave alone. */
  lemma FoldLowersAndDecomposes(u: Unicode, s: string, letters: Letters)
    ensures u.KeepsPlain() && (forall c :: c in u.lower(s) ==> Plain(c)) ==> LatinFold(u, s, letters) == u.lower(s)
    ensures u.lower(s) == s && Mapped(s, letters) == s ==> LatinFold(u, s, letters) == u.decompose(s)
  {
    if forall c :: c in u.lower(s) ==> Plain(c) { MappedKeepsPlain(u.lower(s), letters); }
  }

  // Collapsing

  /** Apostrophes dropped, ASCII capitals lowered. */
  function Cleaned(s: string): string {
    if s == [] then []
    else
      var c := s[|s| - 1];
      Cleaned(s[..|s| - 1]) + if Apostrophe(c) then [] else [AsciiLower(c)]
  }

  /** Character by character: the four apostrophes go, ASCII capitals become the small letters, the rest stays. */
  lemma {:induction false} CleanedBoth(a: string, b: string)
    ensures Cleaned(a + b) == Cleaned(a) + Cleaned(b)
    ensures |b| == 1 ==>
              Cleaned(b) == if b[0] in "'\U{2019}\U{02BC}`" then []
                            else if 'A' <= b[0] <= 'Z' then [(b[0] as int - 'A' as int + 'a' as int) as char] else [b[0]]
    decreases |b|
  {
    if b == [] {
      assert a + b == a;
    } else {
      assert (a + b)[..|a + b| - 1] == a + b[..|b| - 1];
      CleanedBoth(a, b[..|b| - 1]);
      if |b| == 1 { assert b[..0] == []; }
    }
  }

  function RunLength(s: string): (n: nat)
    ensures n <= |s| && (forall i :: 0 <= i < n ==> Keep(s[i])) && (n < |s| ==> !Keep(s[n]))
  {
    if s == [] || !Keep(s[0]) then 0 else 1 + RunLength(s[1..])
  }

  /** The maximal runs of letters and digits, in order. */
  function Runs(s: string): seq<string>
    decreases |s|
  {
    if s == [] then []
    else if !Keep(s[0]) then Runs(s[1..])
    else [s[..RunLength(s)]] + Runs(s[RunLength(s)..])
  }

  function Join(words: seq<string>, sep: char): string {
    if words == [] then []
    else if |words| == 1 then words[0]
    else Join(words[..|words| - 1], sep) + [sep] + words[|words| - 1]
  }

  /** What `collapse` is for: the words of the cleaned text, joined by one separator each. */
  function Collapsed(input: string, sep: char): string { Join(Runs(Cleaned(input)), sep) }

  predicate Word(w: string) { w != [] && forall c :: c in w ==> Keep(c) }

  predicate AllWords(words: seq<string>) { forall w :: w in words ==> Word(w) }

  lemma {:induction false} RunsAreWords(s: string)
    ensures AllWords(Runs(s))
    decreases |s|
  {
    if s != [] {
      if Keep(s[0]) {
        RunsAreWords(s[RunLength(s)..]);
      } else {
        RunsAreWords(s[1..]);
      }
    }
  }

  lemma {:induction false} RunLengthGrows(s: string, c: char)
    ensures RunLength(s + [c]) == RunLength(s) + if RunLength(s) == |s| && Keep(c) then 1 else 0
  {
    if s != [] && Keep(s[0]) {
      assert (s + [c])[1..] == s[1..] + [c];
      RunLengthGrows(s[1..], c);
    } else if s == [] {
      assert (s + [c])[1..] == [];
    }
  }

  lemma WordIsOneRun(s: string)
    requires s != [] && RunLength(s) == |s|
    ensures Runs(s) == [s]
  {
    assert s[..|s|] == s && s[|s|..] == [];
  }

  lemma WordThenOther(s: string, c: char)
    requires s != [] && RunLength(s) == |s| && !Keep(c)
    ensures Runs(s + [c]) == [s]
  {
    var t := s + [c];
    RunLengthGrows(s, c);
    assert t[0] == s[0] && t[..|s|] == s && t[|s|..] == [c] && [c][1..] == [];
    assert Runs([c]) == [];
  }

  /** One more character extends the last run, starts one, or ends it. */
  function Grown(runs: seq<string>, open: bool, c: char): seq<string>
    requires open ==> runs != []
  {
    if !Keep(c) then runs
    else if open then runs[..|runs| - 1] + [runs[|runs| - 1] + [c]]
    else runs + [[c]]
  }

  predicate OpenRun(s: string) { s != [] && Keep(s[|s| - 1]) }

  lemma {:induction false} RunsGrow(s: string, c: char)
    ensures OpenRun(s) ==> Runs(s) != []
    ensures Runs(s + [c]) == Grown(Runs(s), OpenRun(s), c)
    decreases |s|
  {
    var t := s + [c];
    var n := RunLength(s);
    RunLengthGrows(s, c);
    if s == [] {
      assert t == [c];
      if Keep(c) { WordIsOneRun(t); } else { assert t[1..] == []; }
    } else if n == 0 {
      assert t[1..] == s[1..] + [c];
      RunsGrow(s[1..], c);
    } else if n == |s| {
      WordIsOneRun(s);
      if Keep(c) { WordIsOneRun(t); } else { WordThenOther(s, c); }
    } else {
      assert t[n..] == s[n..] + [c] && t[..n] == s[..n] && t[0] == s[0];
      RunsGrow(s[n..], c);
      GrownLater(s[..n], Runs(s[n..]), OpenRun(s), c);
    }
  }

  lemma GrownLater(w: string, runs: seq<string>, open: bool, c: char)
    requires open ==> runs != []
    ensures Grown([w] + runs, open, c) == [w] + Grown(runs, open, c)
  {
    if open {
      assert ([w] + runs)[..|runs|] == [w] + runs[..|runs| - 1];
    }
  }

  lemma JoinGrows(words: seq<string>, c: char, sep: char)
    requires AllWords(words)
    ensures Join(words + [[c]], sep) == if words == [] then [c] else Join(words, sep) + [sep, c]
    ensures words != [] ==>
              Join(words[..|words| - 1] + [words[|words| - 1] + [c]], sep) == Join(words, sep) + [c]
    ensures words != [] ==> Join(words, sep) != []
  {
    var more := words + [[c]];
    assert more[..|more| - 1] == words;
    if words != [] {
      var n := |words| - 1;
      var grown := words[..n] + [words[n] + [c]];
      assert grown[..n] == words[..n];
      assert Word(words[n]);
    }
  }

  /** What the loop adds for the next cleaned character. */
  lemma CollapseStep(seen: string, c: char, sep: char)
    ensures !Keep(c) ==> Join(Runs(seen + [c]), sep) == Join(Runs(seen), sep)
    ensures Keep(c) ==>
              var out := Join(Runs(seen), sep);
              Join(Runs(seen + [c]), sep)
                == if OpenRun(seen) || out == [] then out + [c] else (out + [sep]) + [c]
    ensures seen == [] ==> Join(Runs(seen), sep) == []
  {
    hide Join, Runs;
    RunsGrow(seen, c);
    RunsAreWords(seen);
    JoinGrows(Runs(seen), c, sep);
    var out := Join(Runs(seen), sep);
    assert (out + [sep]) + [c] == out + [sep, c];
    NoRuns(sep);
  }

  lemma NoRuns(sep: char)
    ensures Runs([]) == [] && Join([], sep) == []
  {
  }

  method Collapse(input: string, sep: char) returns (out: string)
    ensures out == Collapsed(input, sep)
  {
    hide Join, Runs, Keep, Apostrophe, AsciiLower;
    out := "";
    var gap := false;
    NoRuns(sep);
    for i := 0 to |input|
      invariant var seen := Cleaned(input[..i]);
                out == Join(Runs(seen), sep) && (gap <==> seen != [] && !OpenRun(seen))
    {
      ghost var seen := Cleaned(input[..i]);
      assert input[..i + 1][..i] == input[..i];
      if Apostrophe(input[i]) {
        assert Cleaned(input[..i + 1]) == seen;
        continue;
      }
      var c := AsciiLower(input[i]);
      assert Cleaned(input[..i + 1]) == seen + [c];
      CollapseStep(seen, c, sep);
      if Keep(c) {
        if gap && out != [] {
          out := out + [sep];
        }
        gap := false;
        out := out + [c];
      } else {
        gap := true;
      }
    }
    assert input[..|input|] == input;
  }

  // What collapsing promises

  /** Words joined by single separators: none leading, trailing or doubled. */
  predicate WellFormed(s: string, sep: char) {
    && (forall i :: 0 <= i < |s| ==> Keep(s[i]) || s[i] == sep)
    && (s != [] ==> s[0] != sep && s[|s| - 1] != sep)
    && (forall i :: 0 <= i < |s| - 1 ==> !(s[i] == sep && s[i + 1] == sep))
  }

  lemma {:induction false} JoinIsWellFormed(words: seq<string>, sep: char)
    requires AllWords(words) && !Keep(sep)
    ensures WellFormed(Join(words, sep), sep)
    ensures words != [] ==> Join(words, sep) != []
  {
    if words != [] {
      var n := |words| - 1;
      assert Word(words[n]);
      JoinIsWellFormed(words[..n], sep);
    }
  }

  lemma {:induction false} JoinFromFront(w: string, words: seq<string>, sep: char)
    requires words != []
    ensures Join([w] + words, sep) == w + [sep] + Join(words, sep)
  {
    var all := [w] + words;
    var n := |words| - 1;
    if n == 0 {
      assert all[..1] == [w];
    } else {
      assert all[..n + 1] == [w] + words[..n];
      JoinFromFront(w, words[..n], sep);
      var rest := Join(words[..n], sep);
      assert (w + [sep] + rest) + [sep] + words[n] == w + [sep] + (rest + [sep] + words[n]);
    }
  }

  lemma {:induction false} RunStops(w: string, rest: string)
    requires (forall c :: c in w ==> Keep(c)) && (rest != [] ==> !Keep(rest[0]))
    ensures RunLength(w + rest) == |w|
  {
    if w != [] {
      assert (w + rest)[1..] == w[1..] + rest;
      assert forall c :: c in w[1..] ==> c in w;
      assert Keep(w[0]);
      RunStops(w[1..], rest);
    } else {
      assert w + rest == rest;
    }
  }

  /** The words that were joined are the runs of the result. */
  lemma {:induction false} RunsOfJoin(words: seq<string>, sep: char)
    requires AllWords(words) && !Keep(sep)
    ensures Runs(Join(words, sep)) == words
    decreases |words|
  {
    if words != [] {
      var w := words[0];
      var rest := words[1..];
      assert words == [w] + rest && Word(w);
      var s := Join(words, sep);
      if rest == [] {
        RunStops(w, []);
        assert s == w + [] && s[..|w|] == w && s[|w|..] == [];
      } else {
        var tail := [sep] + Join(rest, sep);
        JoinFromFront(w, rest, sep);
        assert s == w + tail;
        RunStops(w, tail);
        assert s[..|w|] == w && s[|w|..] == tail && tail[1..] == Join(rest, sep);
        assert forall x :: x in rest ==> x in words;
        RunsOfJoin(rest, sep);
      }
    }
  }

  lemma {:induction false} CleanedKeepsPlain(s: string)
    requires forall c :: c in s ==> Plain(c)
    ensures Cleaned(s) == s
  {
    if s != [] {
      hide Plain, Apostrophe, AsciiLower;
      var c := s[|s| - 1];
      CleanedKeepsPlain(s[..|s| - 1]);
      PlainIsClean(c);
      assert s == s[..|s| - 1] + [c];
    }
  }

  lemma PlainIsClean(c: char)
    requires Plain(c)
    ensures !Apostrophe(c) && AsciiLower(c) == c
  {
  }

  /** The result is well formed, plain, and has the words of the cleaned input. */
  lemma CollapsedSpec(s: string, sep: char)
    requires Separator(sep)
    ensures WellFormed(Collapsed(s, sep), sep) && (forall c :: c in Collapsed(s, sep) ==> Plain(c))
    ensures Runs(Collapsed(s, sep)) == Runs(Cleaned(s))
    ensures Collapsed(s, sep) == [] <==> Runs(Cleaned(s)) == []
  {
    RunsAreWords(Cleaned(s));
    JoinIsWellFormed(Runs(Cleaned(s)), sep);
    RunsOfJoin(Runs(Cleaned(s)), sep);
  }

  /**
   Collapsing what was collapsed, with either separator, is collapsing the original: so it is
   idempotent, and the slug form and the search form of a text have the same words.
   */
  lemma CollapseTwice(s: string, first: char, second: char)
    requires Separator(first) && Separator(second)
    ensures Collapsed(Collapsed(s, first), second) == Collapsed(s, second)
  {
    CollapsedSpec(s, first);
    CleanedKeepsPlain(Collapsed(s, first));
  }

  lemma AfterSeparator(s: string, sep: char, n: nat)
    requires WellFormed(s, sep) && n < |s| && s[n] == sep
    ensures s[n + 1..] != [] && WellFormed(s[n + 1..], sep)
  {
    var rest := s[n + 1..];
    assert rest != [];
    assert rest[0] == s[n + 1] && rest[|rest| - 1] == s[|s| - 1];
    forall i | 0 <= i < |rest| - 1 ensures !(rest[i] == sep && rest[i + 1] == sep) {
      assert rest[i] == s[n + 1 + i] && rest[i + 1] == s[n + 1 + i + 1];
    }
  }

  lemma StartsWithWord(s: string, sep: char)
    requires WellFormed(s, sep) && s != []
    ensures Keep(s[0]) && (RunLength(s) < |s| ==> s[RunLength(s)] == sep)
  {
  }

  lemma {:induction false} JoinOfRuns(s: string, sep: char)
    requires WellFormed(s, sep) && !Keep(sep)
    ensures Join(Runs(s), sep) == s
    decreases |s|
  {
    hide WellFormed;
    if s != [] {
      var n := RunLength(s);
      var w := s[..n];
      StartsWithWord(s, sep);
      if n == |s| {
        assert s[n..] == [] && s[..n] == s;
      } else {
        var rest := s[n + 1..];
        assert s[n..][1..] == rest;
        AfterSeparator(s, sep, n);
        JoinOfRuns(rest, sep);
        JoinFromFront(w, Runs(rest), sep);
        assert s == w + [sep] + rest;
      }
    }
  }

  /** The well-formed texts are exactly those collapsing leaves alone. */
  lemma FixedExactlyWhenWellFormed(s: string, sep: char)
    requires Separator(sep)
    ensures WellFormed(s, sep) <==> Collapsed(s, sep) == s
  {
    if WellFormed(s, sep) {
      CleanedKeepsPlain(s);
      JoinOfRuns(s, sep);
    }
    CollapsedSpec(s, sep);
  }
}
