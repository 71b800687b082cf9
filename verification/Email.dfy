/** Parsed addresses: what `Email.parse` accepts and what it makes sure of. */
module Email {
  import opened Base

  const MAX_LEN: nat := 254

  /** The Unicode tables parsing consults. */
  datatype Tables = Tables(space: char -> bool, control: char -> bool, alphanumeric: char -> bool,
                           lower: string -> string, bytes: string -> nat)
  {
    /**
     Facts of those tables: which ASCII characters are letters or digits, and that lower-casing
     works on each side of an `@` by itself, keeps text non-empty and makes no ASCII punctuation.
     */
    ghost predicate Sane() {
      && (forall c: char :: c < '\U{0080}' ==> (alphanumeric(c) <==> AsciiAlphanumeric(c)))
      && (forall a, b :: lower(a + ['@'] + b) == lower(a) + ['@'] + lower(b))
      && (forall s :: s != [] ==> lower(s) != [])
      && (forall s, c :: c in lower(s) && Punctuation(c) ==> c in s)
    }
  }

  predicate AsciiAlphanumeric(c: char) { 'a' <= c <= 'z' || 'A' <= c <= 'Z' || '0' <= c <= '9' }

  /** The punctuation that ends, quotes or separates addresses. */
  predicate Punctuation(c: char) { c == '@' || c == ',' || c == ';' || c == '"' || c == '\\' }

  datatype EmailError = Empty | TooLong | Malformed

  function TrimStart(t: Tables, s: string): string {
    if s != [] && t.space(s[0]) then TrimStart(t, s[1..]) else s
  }

  function TrimEnd(t: Tables, s: string): string {
    if s != [] && t.space(s[|s| - 1]) then TrimEnd(t, s[..|s| - 1]) else s
  }

  /** The position of the last `c`. */
  function LastIndex(s: string, c: char): (i: Option<nat>)
    ensures i.Some? ==> i.value < |s| && s[i.value] == c && forall k :: i.value < k < |s| ==> s[k] != c
    ensures i.None? ==> c !in s
  {
    if s == [] then None
    else if s[|s| - 1] == c then Some(|s| - 1)
    else LastIndex(s[..|s| - 1], c)
  }

  lemma LastIndexIs(s: string, c: char, k: nat)
    requires k < |s| && s[k] == c && forall j :: k < j < |s| ==> s[j] != c
    ensures LastIndex(s, c) == Some(k)
  {
    if s[|s| - 1] != c {
      LastIndexIs(s[..|s| - 1], c, k);
    }
  }

  /** The pieces between separators, as `split` gives them: always at least one. */
  function SplitOn(s: string, c: char): (r: seq<string>)
    ensures r != []
  {
    if s == [] then [[]]
    else
      var r := SplitOn(s[..|s| - 1], c);
      var n := |r| - 1;
      var last := s[|s| - 1];
      if last == c then r + [[]] else r[..n] + [r[n] + [last]]
  }

  /** Every character but the separators is in some piece. */
  lemma {:induction false} SplitKeeps(s: string, c: char, x: char)
    requires x in s && x != c
    ensures exists p :: p in SplitOn(s, c) && x in p
  {
    var init, last := s[..|s| - 1], s[|s| - 1];
    var r := SplitOn(init, c);
    var n := |r| - 1;
    if last != x || x in init {
      SplitKeeps(init, c, x);
      var p :| p in r && x in p;
      var i :| 0 <= i < |r| && r[i] == p;
      assert SplitOn(s, c)[i] == if i == n && last != c then p + [last] else p;
      assert SplitOn(s, c)[i] in SplitOn(s, c);
    } else {
      assert SplitOn(s, c)[n] == r[n] + [last];
      assert SplitOn(s, c)[n] in SplitOn(s, c);
    }
  }

  predicate DomainLabel(t: Tables, part: string) {
    && part != [] && part[0] != '-' && part[|part| - 1] != '-'
    && forall c :: c in part ==> t.alphanumeric(c) || c == '-'
  }

  predicate GoodParts(t: Tables, local: string, domain: string) {
    && local != [] && '@' !in local
    && '.' in domain && domain[0] != '.' && domain[|domain| - 1] != '.'
    && forall part :: part in SplitOn(domain, '.') ==> DomainLabel(t, part)
  }

  function Parse(t: Tables, raw: string): Result<string, EmailError> {
    var s := TrimEnd(t, TrimStart(t, raw));
    if s == [] then Err(Empty)
    else if t.bytes(s) > MAX_LEN then Err(TooLong)
    else if exists c :: c in s && (t.space(c) || t.control(c)) then Err(Malformed)
    else
      match LastIndex(s, '@')
      case None => Err(Malformed)
      case Some(i) =>
        if GoodParts(t, s[..i], s[i + 1..]) then Ok(t.lower(s)) else Err(Malformed)
  }

  /**
   An address: text around an `@`, with a domain that cannot be mistaken for a list or a quote.
   This is all the printers rely on.
   */
  predicate Address(s: string) {
    && LastIndex(s, '@').Some? && LastIndex(s, '@').value > 0
    && forall c :: c in DomainOf(s) ==> !Punctuation(c)
  }

  function LocalOf(s: string): string {
    match LastIndex(s, '@')
    case Some(i) => s[..i]
    case None => []
  }

  function DomainOf(s: string): string {
    match LastIndex(s, '@')
    case Some(i) => s[i + 1..]
    case None => []
  }

  lemma AtIsLast(s: string, local: string, domain: string)
    requires s == local + ['@'] + domain && '@' !in domain
    ensures LastIndex(s, '@') == Some(|local|)
  {
    hide LastIndex;
    assert forall k :: |local| < k < |s| ==> s[k] == domain[k - |local| - 1];
    LastIndexIs(s, '@', |local|);
  }

  lemma SplitsAtAt(s: string, local: string, domain: string)
    requires s == local + ['@'] + domain && '@' !in domain
    ensures LastIndex(s, '@') == Some(|local|) && LocalOf(s) == local && DomainOf(s) == domain
  {
    hide LastIndex;
    AtIsLast(s, local, domain);
  }

  lemma DomainHasNoPunctuation(t: Tables, local: string, domain: string)
    requires t.Sane() && GoodParts(t, local, domain)
    ensures forall c :: c in domain ==> !Punctuation(c)
  {
    forall c | c in domain ensures !Punctuation(c) {
      if c != '.' {
        SplitKeeps(domain, '.', c);
        var part :| part in SplitOn(domain, '.') && c in part;
        assert DomainLabel(t, part);
      }
    }
  }

  /** Every address that parses is one the printers can rely on. */
  lemma ParsedIsAddress(t: Tables, raw: string)
    requires t.Sane() && Parse(t, raw).Ok?
    ensures Address(Parse(t, raw).value)
  {
    var s := TrimEnd(t, TrimStart(t, raw));
    var i := LastIndex(s, '@').value;
    var local, domain := s[..i], s[i + 1..];
    assert s == local + ['@'] + domain;
    DomainHasNoPunctuation(t, local, domain);
    var l, d := t.lower(local), t.lower(domain);
    assert t.lower(s) == l + ['@'] + d;
    assert forall c :: c in d && Punctuation(c) ==> c in domain;
    assert Punctuation('@');
    SplitsAtAt(t.lower(s), l, d);
  }

  // What parses

  /** White space up to `i` and from `j` on, and none at either end in between. */
  predicate OuterSpace(t: Tables, raw: string, i: nat, j: nat)
    requires i <= j <= |raw|
  {
    && (forall k :: 0 <= k < i ==> t.space(raw[k])) && (forall k :: j <= k < |raw| ==> t.space(raw[k]))
    && (i < j ==> !t.space(raw[i]) && !t.space(raw[j - 1]))
  }

  /** The text within its outer white space. */
  ghost predicate Trimmed(t: Tables, raw: string, s: string) {
    exists i, j :: 0 <= i <= j <= |raw| && OuterSpace(t, raw, i, j) && s == raw[i..j]
  }

  lemma {:induction false} TrimStartSpec(t: Tables, s: string) returns (i: nat)
    ensures i <= |s| && TrimStart(t, s) == s[i..] && (forall k :: 0 <= k < i ==> t.space(s[k]))
    ensures TrimStart(t, s) != [] ==> !t.space(TrimStart(t, s)[0])
  {
    if s != [] && t.space(s[0]) {
      var n := TrimStartSpec(t, s[1..]);
      i := n + 1;
      assert s[1..][n..] == s[i..];
      assert forall k :: 0 < k < i ==> s[k] == s[1..][k - 1];
    } else {
      i := 0;
    }
  }

  lemma {:induction false} TrimEndSpec(t: Tables, s: string) returns (j: nat)
    ensures j <= |s| && TrimEnd(t, s) == s[..j] && (forall k :: j <= k < |s| ==> t.space(s[k]))
    ensures TrimEnd(t, s) != [] ==> !t.space(TrimEnd(t, s)[|TrimEnd(t, s)| - 1])
  {
    if s != [] && t.space(s[|s| - 1]) {
      j := TrimEndSpec(t, s[..|s| - 1]);
      assert s[..|s| - 1][..j] == s[..j];
      assert forall k :: j <= k < |s| - 1 ==> s[k] == s[..|s| - 1][k];
    } else {
      j := |s|;
      assert s[..j] == s;
    }
  }

  lemma TrimmedExactly(t: Tables, raw: string)
    ensures Trimmed(t, raw, TrimEnd(t, TrimStart(t, raw)))
  {
    var i := TrimStartSpec(t, raw);
    var mid := raw[i..];
    var n := TrimEndSpec(t, mid);
    var s := mid[..n];
    assert s == raw[i..i + n];
    assert forall k :: i + n <= k < |raw| ==> raw[k] == mid[k - i];
    if s != [] { assert s[0] == mid[0] && s[n - 1] == raw[i + n - 1]; }
    assert OuterSpace(t, raw, i, i + n);
  }

  lemma TrimmedOnce(t: Tables, raw: string, a: string, b: string)
    requires Trimmed(t, raw, a) && Trimmed(t, raw, b)
    ensures a == b
  {
    hide OuterSpace;
    var i, j :| 0 <= i <= j <= |raw| && OuterSpace(t, raw, i, j) && a == raw[i..j];
    var x, y :| 0 <= x <= y <= |raw| && OuterSpace(t, raw, x, y) && b == raw[x..y];
    if i < j { SpanReaches(t, raw, i, j, x, y); }
    if x < y { SpanReaches(t, raw, x, y, i, j); }
  }

  /** A span with no white space at its ends reaches past all the text between white space. */
  lemma SpanReaches(t: Tables, raw: string, i: nat, j: nat, x: nat, y: nat)
    requires i < j <= |raw| && x <= y <= |raw| && OuterSpace(t, raw, i, j) && OuterSpace(t, raw, x, y)
    ensures x <= i && j <= y
  {
  }

  /** Letters, digits, hyphens and dots; no label starts or ends with a hyphen so far, and none before the last is empty. */
  predicate LabelsSoFar(t: Tables, s: string) { forall i :: 0 <= i < |s| ==> Fits(t, s, i) }

  predicate Fits(t: Tables, s: string, i: nat)
    requires i < |s|
  {
    && (t.alphanumeric(s[i]) || s[i] == '-' || s[i] == '.')
    && (s[i] == '.' ==> i > 0 && s[i - 1] != '.' && s[i - 1] != '-')
    && (s[i] == '-' ==> i > 0 && s[i - 1] != '.')
  }

  /** A domain, by its characters: at least one dot, and every label non-empty with a letter or digit at either end. */
  predicate DomainName(t: Tables, s: string) {
    '.' in s && LabelsSoFar(t, s) && s[|s| - 1] != '.' && s[|s| - 1] != '-'
  }

  /** The last piece may still grow. */
  predicate Growing(t: Tables, p: string) { (p != [] ==> p[0] != '-') && forall c :: c in p ==> t.alphanumeric(c) || c == '-' }

  lemma {:induction false} PiecesExactly(t: Tables, s: string)
    requires !t.alphanumeric('.')
    ensures var r := SplitOn(s, '.');
            var n := |r| - 1;
            && (LabelsSoFar(t, s) <==> (forall k :: 0 <= k < n ==> DomainLabel(t, r[k])) && Growing(t, r[n]))
            && (r[n] == [] <==> s == [] || s[|s| - 1] == '.')
            && (r[n] != [] ==> r[n][|r[n]| - 1] == s[|s| - 1])
  {
    if s != [] {
      var init, c := s[..|s| - 1], s[|s| - 1];
      PiecesExactly(t, init);
      var q := SplitOn(init, '.');
      var m := |q| - 1;
      SoFarGrows(t, init, c);
      assert init + [c] == s;
      var r := SplitOn(s, '.');
      if c == '.' {
        assert r == q + [[]] && r[m] == q[m];
        assert forall k :: 0 <= k < m ==> r[k] == q[k];
        EndOfLabel(t, q[m]);
      } else {
        assert r == q[..m] + [q[m] + [c]];
        assert forall k :: 0 <= k < m ==> r[k] == q[k];
        GrowingGrows(t, q[m], c);
      }
    }
  }

  lemma SoFarGrows(t: Tables, s: string, c: char)
    ensures LabelsSoFar(t, s + [c]) <==>
              && LabelsSoFar(t, s) && (t.alphanumeric(c) || c == '-' || c == '.')
              && (c == '.' ==> s != [] && s[|s| - 1] != '.' && s[|s| - 1] != '-')
              && (c == '-' ==> s != [] && s[|s| - 1] != '.')
  {
    var l := s + [c];
    forall i | 0 <= i < |s| ensures Fits(t, l, i) == Fits(t, s, i) {
      assert l[i] == s[i] && (i > 0 ==> l[i - 1] == s[i - 1]);
    }
    assert l[|s|] == c && (s != [] ==> l[|s| - 1] == s[|s| - 1]);
    if LabelsSoFar(t, l) { assert Fits(t, l, |s|); }
  }

  lemma EndOfLabel(t: Tables, p: string)
    ensures DomainLabel(t, p) <==> Growing(t, p) && p != [] && p[|p| - 1] != '-'
  {
  }

  lemma GrowingGrows(t: Tables, p: string, c: char)
    ensures Growing(t, p + [c]) <==> Growing(t, p) && (t.alphanumeric(c) || c == '-') && (p == [] ==> c != '-')
  {
    assert c in p + [c];
    assert forall x :: x in p ==> x in p + [c];
    if p != [] { assert (p + [c])[0] == p[0]; }
  }

  lemma DomainExactly(t: Tables, s: string)
    requires !t.alphanumeric('.')
    ensures DomainName(t, s) <==>
              '.' in s && s[0] != '.' && s[|s| - 1] != '.' && forall part :: part in SplitOn(s, '.') ==> DomainLabel(t, part)
  {
    hide LabelsSoFar, Growing, DomainLabel, SplitOn;
    var r := SplitOn(s, '.');
    var n := |r| - 1;
    PiecesExactly(t, s);
    EndOfLabel(t, r[n]);
    forall k | 0 <= k < |r| ensures r[k] in r {}
    if DomainName(t, s) {
      FirstFits(t, s);
      forall part | part in r ensures DomainLabel(t, part) {
        var k :| 0 <= k < |r| && r[k] == part;
      }
    }
  }

  lemma FirstFits(t: Tables, s: string)
    requires LabelsSoFar(t, s) && s != []
    ensures s[0] != '.'
  {
    assert Fits(t, s, 0);
  }

  /** Something, an `@`, and a domain, with no other `@`. */
  predicate AddressAt(t: Tables, s: string, i: nat) {
    0 < i < |s| && s[i] == '@' && '@' !in s[..i] && '@' !in s[i + 1..] && DomainName(t, s[i + 1..])
  }

  /**
   What parses: the text within its outer white space, at most 254 bytes, without white space or control
   characters, that is something, an `@`, and a domain, with no other `@`; it comes out in lower case.
   */
  lemma ParsesExactly(t: Tables, raw: string, s: string)
    requires t.Sane() && Trimmed(t, raw, s)
    ensures Parse(t, raw).Ok? <==>
              && t.bytes(s) <= 254 && (forall c :: c in s ==> !t.space(c) && !t.control(c))
              && exists i :: AddressAt(t, s, i)
    ensures Parse(t, raw).Ok? ==> Parse(t, raw).value == t.lower(s)
    ensures s == [] ==> Parse(t, raw) == Err(Empty)
    ensures s != [] && t.bytes(s) > 254 ==> Parse(t, raw) == Err(TooLong)
  {
    hide LastIndex, TrimStart, TrimEnd, AddressAt, Trimmed, GoodParts;
    assert !AsciiAlphanumeric('.');
    TrimmedExactly(t, raw);
    TrimmedOnce(t, raw, s, TrimEnd(t, TrimStart(t, raw)));
    PartsExactly(t, s);
  }

  lemma PartsExactly(t: Tables, s: string)
    requires !t.alphanumeric('.')
    ensures (LastIndex(s, '@').Some? && GoodParts(t, s[..LastIndex(s, '@').value], s[LastIndex(s, '@').value + 1..]))
       <==> exists i :: AddressAt(t, s, i)
  {
    hide LastIndex, GoodParts, AddressAt;
    if LastIndex(s, '@').Some? {
      GoodPartsExactly(t, s, LastIndex(s, '@').value);
    }
    if i :| AddressAt(t, s, i) {
      OnlyAt(t, s, i);
    }
  }

  lemma GoodPartsExactly(t: Tables, s: string, i: nat)
    requires !t.alphanumeric('.') && i < |s| && s[i] == '@' && forall k :: i < k < |s| ==> s[k] != '@'
    ensures GoodParts(t, s[..i], s[i + 1..]) <==> AddressAt(t, s, i)
  {
    hide DomainName, SplitOn, DomainLabel;
    DomainExactly(t, s[i + 1..]);
  }

  lemma OnlyAt(t: Tables, s: string, i: nat)
    requires AddressAt(t, s, i)
    ensures i < |s| && s[i] == '@' && LastIndex(s, '@') == Some(i) && forall k :: i < k < |s| ==> s[k] != '@'
  {
    hide DomainName;
    assert s == s[..i] + ['@'] + s[i + 1..];
    AtIsLast(s, s[..i], s[i + 1..]);
  }
}
