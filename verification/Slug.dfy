/** Minting slugs: folding, the length cap, and the search for a free one. */
module Slug {
  import opened Base
  import opened Text

  const MAX_SLUG_LEN: nat := 80

  /** The counter is 32 bits wide; taking its next value fails one short of the top. */
  const LAST_NUMBER: nat := 0xFFFF_FFFE

  datatype SlugError = Empty | InvalidMunicipalityNumber

  function LastHyphen(s: string): (i: Option<nat>)
    ensures i.Some? ==> i.value < |s| && s[i.value] == '-' && forall k :: i.value < k < |s| ==> s[k] != '-'
    ensures i.None? ==> '-' !in s
  {
    if s == [] then None
    else if s[|s| - 1] == '-' then Some(|s| - 1)
    else LastHyphen(s[..|s| - 1])
  }

  /** Cuts at the last hyphen within the limit, or hard at the limit if there is none. */
  function CutToLen(s: string, max: nat): string {
    if |s| <= max then s
    else if s[max] == '-' then s[..max]
    else
      match LastHyphen(s[..max])
      case Some(i) => s[..i]
      case None => s[..max]
  }

  function Slugify(u: Unicode, name: string): Result<string, SlugError> {
    var slug := CutToLen(Collapsed(LatinFold(u, name, Transliterate), '-'), MAX_SLUG_LEN);
    if slug == [] then Err(Empty) else Ok(slug)
  }

  function MunicipalitySlug(u: Unicode, number: string, name: string): Result<string, SlugError> {
    if |number| != 4 || (exists c :: c in number && !('0' <= c <= '9')) then Err(InvalidMunicipalityNumber)
    else
      match Slugify(u, name)
      case Err(e) => Err(e)
      case Ok(slug) => Ok(number + "-" + slug)
  }

  function MakeRoomFor(base: string, suffix: string): string {
    CutToLen(base, if 1 + |suffix| <= MAX_SLUG_LEN then MAX_SLUG_LEN - 1 - |suffix| else 0)
  }

  function Appended(base: string, suffix: string): string { MakeRoomFor(base, suffix) + "-" + suffix }

  function Digit(n: nat): char
    requires n < 10
  {
    ('0' as int + n) as char
  }

  function Digits(n: nat): string {
    if n < 10 then [Digit(n)] else Digits(n / 10) + [Digit(n % 10)]
  }

  function Numbered(stem: string, n: nat): string { Appended(stem, Digits(n)) }

  /** The first free numbered slug from `n` on. */
  function FirstNumbered(stem: string, taken: set<string>, n: nat): Option<string>
    decreases LAST_NUMBER + 1 - n
  {
    if n > LAST_NUMBER then None
    else if Numbered(stem, n) !in taken then Some(Numbered(stem, n))
    else FirstNumbered(stem, taken, n + 1)
  }

  /** The post town's own slug, when it has one. */
  function TownSlug(u: Unicode, town: Option<string>): Option<string> {
    if town.None? then None
    else
      match Slugify(u, town.value)
      case Ok(slug) => Some(slug)
      case Err(_) => None
  }

  /** The base, then with the post town, then numbered from 2; `None` when every number is taken. */
  function FirstFreeSlug(u: Unicode, base: string, postTown: Option<string>, taken: set<string>): Option<string> {
    if base !in taken then Some(base)
    else
      match TownSlug(u, postTown)
      case None => FirstNumbered(base, taken, 2)
      case Some(t) =>
        var withTown := Appended(base, t);
        if withTown !in taken then Some(withTown) else FirstNumbered(withTown, taken, 2)
  }

  // Cutting

  ghost predicate IsSlug(s: string) { s != [] && WellFormed(s, '-') }

  /**
   A cut slug is a slug again: a prefix that ends where a word ends, the longest such prefix
   that fits; or, when the first word alone does not fit, as much of it as does.
   */
  lemma CutSpec(s: string, max: nat)
    requires IsSlug(s) && 1 <= max < |s|
    ensures var r := CutToLen(s, max);
            && IsSlug(r) && |r| <= max && r == s[..|r|]
            && ((s[|r|] == '-' && forall k :: |r| < k <= max ==> s[k] != '-')
                || (|r| == max && '-' !in s[..max + 1]))
  {
    var r := CutToLen(s, max);
    var head := s[..max];
    assert head[0] == s[0];
    assert forall k :: 0 <= k < max ==> head[k] == s[k];
    assert forall i :: 0 <= i < |r| ==> r[i] == s[i];
    assert r != [];
    if |r| < max || s[max] == '-' {
      assert s[|r|] == '-' && s[|r| - 1] != '-';
    }
  }

  /** Cutting a slug to the cap leaves a slug within it; a slug within it is left alone. */
  lemma CapSpec(s: string)
    requires WellFormed(s, '-')
    ensures WellFormed(CutToLen(s, MAX_SLUG_LEN), '-') && |CutToLen(s, MAX_SLUG_LEN)| <= MAX_SLUG_LEN
    ensures s == [] <==> CutToLen(s, MAX_SLUG_LEN) == []
  {
    if |s| > MAX_SLUG_LEN { CutSpec(s, MAX_SLUG_LEN); }
  }

  lemma SlugIsPlain(s: string)
    requires WellFormed(s, '-')
    ensures forall c :: c in s ==> Plain(c)
  {
  }

  /** A slug is well formed and within the cap, and a name has one unless no word is left of it. */
  lemma SlugifySpec(u: Unicode, name: string)
    ensures var r := Slugify(u, name);
            && (r.Ok? ==> IsSlug(r.value) && |r.value| <= MAX_SLUG_LEN)
            && (r.Err? <==> Runs(Cleaned(LatinFold(u, name, Transliterate))) == [])
            && (r.Err? ==> r.error == Empty)
  {
    CollapsedSpec(LatinFold(u, name, Transliterate), '-');
    CapSpec(Collapsed(LatinFold(u, name, Transliterate), '-'));
  }

  /** The slug is the words of the folded name, joined by hyphens: all of them, or as many whole ones as fit. */
  lemma SlugifyKeepsTheWords(u: Unicode, name: string)
    requires Slugify(u, name).Ok?
    ensures var r := Slugify(u, name).value;
            var words := Join(Runs(Cleaned(u.decompose(Mapped(u.lower(name), Transliterate)))), '-');
            && |r| <= |words| && r == words[..|r|]
            && (|words| <= 80 ==> r == words)
            && (|words| > 80 ==>
                  |r| <= 80
                  && ((words[|r|] == '-' && forall k :: |r| < k <= 80 ==> words[k] != '-')
                      || (|r| == 80 && '-' !in words[..81])))
  {
    var full := Collapsed(LatinFold(u, name, Transliterate), '-');
    CollapsedSpec(LatinFold(u, name, Transliterate), '-');
    if |full| > 80 {
      CutSpec(full, 80);
    } else {
      assert full[..|full|] == full;
    }
  }

  /** Every slug within the cap, so every one minted here, is its own slug. */
  lemma SlugOfSlug(u: Unicode, slug: string)
    requires u.KeepsPlain() && IsSlug(slug) && |slug| <= MAX_SLUG_LEN
    ensures Slugify(u, slug) == Ok(slug)
  {
    SlugIsPlain(slug);
    FoldKeepsPlain(u, slug, Transliterate);
    FixedExactlyWhenWellFormed(slug, '-');
  }

  lemma SlugifyTwice(u: Unicode, name: string)
    requires u.KeepsPlain() && Slugify(u, name).Ok?
    ensures Slugify(u, Slugify(u, name).value) == Slugify(u, name)
  {
    SlugifySpec(u, name);
    SlugOfSlug(u, Slugify(u, name).value);
  }

  /** It takes four digits and a name with a word in it; it says which is missing. */
  lemma MunicipalitySlugExactly(u: Unicode, number: string, name: string)
    ensures MunicipalitySlug(u, number, name).Ok? <==>
              |number| == 4 && (forall c :: c in number ==> '0' <= c <= '9') && Runs(Cleaned(LatinFold(u, name, Transliterate))) != []
    ensures MunicipalitySlug(u, number, name) == Err(InvalidMunicipalityNumber)
       <==> |number| != 4 || exists c :: c in number && !('0' <= c <= '9')
  {
    SlugifySpec(u, name);
  }

  /** A municipality's slug is a slug that starts with its number, whichever name follows. */
  lemma MunicipalitySlugSpec(u: Unicode, number: string, name: string)
    requires MunicipalitySlug(u, number, name).Ok?
    ensures var s := MunicipalitySlug(u, number, name).value;
            && IsSlug(s) && |s| <= MAX_SLUG_LEN + 5 && s[..4] == number && s[4] == '-'
            && Slugify(u, name) == Ok(s[5..])
  {
    SlugifySpec(u, name);
    var slug := Slugify(u, name).value;
    var s := MunicipalitySlug(u, number, name).value;
    assert s == number + ("-" + slug) && s[5..] == slug;
    assert forall i :: 0 <= i < 4 ==> number[i] in number;
    JoinedSlugs(number, slug);
  }

  // Appending a suffix

  lemma JoinedSlugs(a: string, b: string)
    requires IsSlug(a) && IsSlug(b)
    ensures IsSlug(a + "-" + b)
  {
    var s := a + "-" + b;
    assert forall i :: 0 <= i < |a| ==> s[i] == a[i];
    assert s[|a|] == '-';
    assert forall i :: |a| < i < |s| ==> s[i] == b[i - |a| - 1];
  }

  /**
   Appending a suffix gives a slug within the cap exactly when the suffix leaves room for a
   hyphen and one character. A longer one, which a post town can have, does not.
   */
  lemma AppendedFits(base: string, suffix: string)
    requires IsSlug(base) && |base| <= MAX_SLUG_LEN && IsSlug(suffix)
    ensures IsSlug(Appended(base, suffix)) && |Appended(base, suffix)| <= MAX_SLUG_LEN <==> |suffix| <= MAX_SLUG_LEN - 2
  {
    if |suffix| <= MAX_SLUG_LEN - 2 {
      var budget := MAX_SLUG_LEN - 1 - |suffix|;
      if |base| > budget { CutSpec(base, budget); }
      JoinedSlugs(MakeRoomFor(base, suffix), suffix);
    } else {
      assert base[..0] == [];
      assert MakeRoomFor(base, suffix) == [];
      assert Appended(base, suffix)[0] == '-';
    }
  }

  /**
   The suffix comes after a hyphen and what there is room for of the base: all of it if that fits, or else
   the longest run of whole words that does, or a cut of the first word.
   */
  lemma AppendedSpec(base: string, suffix: string) returns (n: nat)
    requires IsSlug(base) && |base| <= 80 && IsSlug(suffix) && |suffix| <= 78
    ensures n <= |base| && Appended(base, suffix) == base[..n] + "-" + suffix
    ensures |base| + 1 + |suffix| <= 80 ==> n == |base|
    ensures |base| + 1 + |suffix| > 80 ==>
              var room := 79 - |suffix|;
              && 1 <= n <= room < |base|
              && ((base[n] == '-' && forall k :: n < k <= room ==> base[k] != '-') || (n == room && '-' !in base[..room + 1]))
  {
    var room := 79 - |suffix|;
    if |base| <= room {
      n := |base|;
      assert base[..n] == base;
    } else {
      CutSpec(base, room);
      n := |CutToLen(base, room)|;
    }
  }

  /** A post town whose slug has 79 characters: the slug made with it starts with a hyphen. */
  lemma LongTownBreaksTheSlug(u: Unicode)
    requires u.KeepsPlain()
    ensures var town := seq(79, i => 'a');
            && TownSlug(u, Some(town)) == Some(town)
            && FirstFreeSlug(u, "skole", Some(town), {"skole"}) == Some("-" + town)
  {
    var town := seq(79, i => 'a');
    SlugOfSlug(u, town);
    assert "skole"[..0] == [];
    assert MakeRoomFor("skole", town) == [];
    assert Appended("skole", town) == "-" + town;
    assert |"-" + town| == 80;
  }

  // Numbering

  function Value(s: string): int {
    if s == [] then 0 else 10 * Value(s[..|s| - 1]) + (s[|s| - 1] as int - '0' as int)
  }

  lemma {:induction false} DigitsSpec(n: nat)
    ensures Digits(n) != [] && (forall c :: c in Digits(n) ==> Keep(c) && c != '-') && Value(Digits(n)) == n
  {
    if n >= 10 {
      DigitsSpec(n / 10);
      assert Digits(n)[..|Digits(n)| - 1] == Digits(n / 10);
    } else {
      assert Digits(n)[..0] == [];
    }
  }

  lemma DigitsLength(n: nat)
    requires n <= 0xFFFF_FFFF
    ensures |Digits(n)| <= 10
  {
    var a := n / 10;
    var b := a / 10;
    var c := b / 10;
    var d := c / 10;
    var e := d / 10;
    var f := e / 10;
    var g := f / 10;
    var h := g / 10;
    var i := h / 10;
    assert i < 10;
    assert |Digits(i)| <= 1 && |Digits(h)| <= 2 && |Digits(g)| <= 3;
    assert |Digits(f)| <= 4 && |Digits(e)| <= 5 && |Digits(d)| <= 6;
    assert |Digits(c)| <= 7 && |Digits(b)| <= 8 && |Digits(a)| <= 9;
  }

  lemma {:induction false} SameTail(a: string, x: string, b: string, y: string)
    requires a + "-" + x == b + "-" + y && '-' !in x && '-' !in y
    ensures x == y
  {
    var s := a + "-" + x;
    assert s[|a|] == '-' && s[|b|] == '-';
    assert forall k :: |a| < k < |s| ==> s[k] == x[k - |a| - 1];
    assert forall k :: |b| < k < |s| ==> s[k] == y[k - |b| - 1];
    assert |a| == |b|;
    assert x == s[|a| + 1..] == y;
  }

  /** Numbered slugs stay distinct, even where the stem was cut to make room. */
  lemma NumberedDiffer(stem: string, n: nat, m: nat)
    requires Numbered(stem, n) == Numbered(stem, m)
    ensures n == m
  {
    DigitsSpec(n);
    DigitsSpec(m);
    SameTail(MakeRoomFor(stem, Digits(n)), Digits(n), MakeRoomFor(stem, Digits(m)), Digits(m));
  }

  lemma {:induction false} FirstNumberedSpec(stem: string, taken: set<string>, n: nat)
    ensures var r := FirstNumbered(stem, taken, n);
            && (r.Some? ==> exists k :: && n <= k <= LAST_NUMBER && r.value == Numbered(stem, k) && r.value !in taken
                                        && forall j :: n <= j < k ==> Numbered(stem, j) in taken)
            && (r.None? ==> forall j :: n <= j <= LAST_NUMBER ==> Numbered(stem, j) in taken)
    decreases LAST_NUMBER + 1 - n
  {
    hide Numbered;
    if n <= LAST_NUMBER && Numbered(stem, n) in taken {
      FirstNumberedSpec(stem, taken, n + 1);
    }
  }

  /** By counting: that many numbers cannot all be taken by fewer slugs. */
  lemma {:induction false} TakenByAll(stem: string, taken: set<string>, n: nat, m: nat)
    requires n <= m && forall j :: n <= j < m ==> Numbered(stem, j) in taken
    ensures |taken| >= m - n
    decreases m - n
  {
    if n < m {
      var last := Numbered(stem, m - 1);
      forall j | n <= j < m - 1 ensures Numbered(stem, j) in taken - {last} {
        if Numbered(stem, j) == last {
          NumberedDiffer(stem, j, m - 1);
        }
      }
      TakenByAll(stem, taken - {last}, n, m - 1);
    }
  }

  lemma NumberedIsSlug(stem: string, n: nat)
    requires n <= LAST_NUMBER && IsSlug(stem) && |stem| <= MAX_SLUG_LEN
    ensures IsSlug(Numbered(stem, n)) && |Numbered(stem, n)| <= MAX_SLUG_LEN
  {
    DigitsSpec(n);
    DigitsLength(n);
    assert forall i :: 0 <= i < |Digits(n)| ==> Digits(n)[i] in Digits(n);
    AppendedFits(stem, Digits(n));
  }

  /** A stem that starts with a hyphen keeps its numbered slugs from being well formed. */
  lemma NumberedKeepsHyphen(stem: string, n: nat)
    requires stem != [] && stem[0] == '-'
    ensures !IsSlug(Numbered(stem, n))
  {
    var room := MakeRoomFor(stem, Digits(n));
    assert room == [] || room[0] == '-';
    assert Numbered(stem, n)[0] == '-';
  }

  /**
   The search ends, whatever finite set is taken, as long as there are fewer taken slugs than
   numbers; what it gives is free, and is the base, the base with the town, or the least free
   number in that order.
   */
  lemma FirstFreeIsFree(u: Unicode, base: string, postTown: Option<string>, taken: set<string>)
    requires |taken| < LAST_NUMBER - 1
    ensures var r := FirstFreeSlug(u, base, postTown, taken);
            && r.Some? && r.value !in taken
            && (base !in taken ==> r.value == base)
            && (base in taken ==>
                  var town := TownSlug(u, postTown);
                  var stem := if town.Some? then Appended(base, town.value) else base;
                  || (town.Some? && r.value == stem)
                  || (stem in taken && exists k :: && 2 <= k <= LAST_NUMBER && r.value == Numbered(stem, k)
                                                   && forall j :: 2 <= j < k ==> Numbered(stem, j) in taken))
  {
    if base in taken {
      var town := TownSlug(u, postTown);
      var stem := if town.Some? then Appended(base, town.value) else base;
      FirstNumberedSpec(stem, taken, 2);
      if FirstNumbered(stem, taken, 2).None? {
        TakenByAll(stem, taken, 2, LAST_NUMBER + 1);
      }
    }
  }

  /**
   For a base within the cap, what the search gives is a slug within the cap exactly when the
   base is free, no town is used, or the town's slug has at most 78 characters.
   */
  lemma FirstFreeIsSlug(u: Unicode, base: string, postTown: Option<string>, taken: set<string>)
    requires |taken| < LAST_NUMBER - 1 && IsSlug(base) && |base| <= MAX_SLUG_LEN
    ensures var r := FirstFreeSlug(u, base, postTown, taken);
            var town := TownSlug(u, postTown);
            && r.Some?
            && (IsSlug(r.value) && |r.value| <= MAX_SLUG_LEN
                <==> (base !in taken || town.None? || |town.value| <= MAX_SLUG_LEN - 2))
  {
    FirstFreeIsFree(u, base, postTown, taken);
    if base in taken {
      var town := TownSlug(u, postTown);
      var stem := if town.Some? then Appended(base, town.value) else base;
      if town.Some? {
        SlugifySpec(u, postTown.value);
        AppendedFits(base, town.value);
        if |town.value| > MAX_SLUG_LEN - 2 {
          LongTownLeadsWithHyphen(base, town.value);
        }
      }
      var r := FirstFreeSlug(u, base, postTown, taken).value;
      if !(town.Some? && r == stem) {
        var k :| 2 <= k <= LAST_NUMBER && r == Numbered(stem, k);
        if town.None? || |town.value| <= MAX_SLUG_LEN - 2 {
          NumberedIsSlug(stem, k);
        } else {
          NumberedKeepsHyphen(stem, k);
        }
      }
    }
  }

  lemma LongTownLeadsWithHyphen(base: string, suffix: string)
    requires IsSlug(base) && |suffix| > MAX_SLUG_LEN - 2
    ensures Appended(base, suffix) != [] && Appended(base, suffix)[0] == '-'
  {
    assert base[..0] == [];
    assert MakeRoomFor(base, suffix) == [];
  }
}
