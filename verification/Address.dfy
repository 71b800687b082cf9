/** Writing a selection of addresses as a `mailto:` link or a text to copy, and reading them back. */
module Address {
  import opened Base
  import E = Email

  type Byte = x: int | 0 <= x < 256

  // Recipients

  /** First occurrences, in order. */
  function Firsts(s: seq<string>): seq<string> {
    if s == [] then []
    else
      var rest := Firsts(s[..|s| - 1]);
      var last := s[|s| - 1];
      if last in s[..|s| - 1] then rest else rest + [last]
  }

  method NewRecipients(addresses: seq<string>) returns (r: seq<string>)
    ensures r == Firsts(addresses)
  {
    r := [];
    var seen := {};
    for i := 0 to |addresses|
      invariant r == Firsts(addresses[..i])
      invariant forall a :: a in seen <==> a in addresses[..i]
    {
      assert addresses[..i + 1][..i] == addresses[..i];
      if addresses[i] !in seen {
        seen := seen + {addresses[i]};
        r := r + [addresses[i]];
      }
    }
    assert addresses[..|addresses|] == addresses;
  }

  function FirstIndex(s: seq<string>, a: string): (i: nat)
    requires a in s
    ensures i < |s| && s[i] == a && a !in s[..i]
  {
    if a in s[..|s| - 1] then
      var i := FirstIndex(s[..|s| - 1], a);
      assert s[..|s| - 1][..i] == s[..i];
      i
    else |s| - 1
  }

  lemma {:induction false} FirstsAreTheSame(s: seq<string>)
    ensures forall a :: a in Firsts(s) <==> a in s
  {
    if s != [] {
      FirstsAreTheSame(s[..|s| - 1]);
      assert forall a :: a in s <==> a in s[..|s| - 1] || a == s[|s| - 1];
    }
  }

  /** Every address is kept once, and in the order in which each first occurs. */
  lemma {:induction false} FirstsInOrder(s: seq<string>, i: nat, j: nat)
    requires i < j < |Firsts(s)|
    ensures Firsts(s)[i] in s && Firsts(s)[j] in s && FirstIndex(s, Firsts(s)[i]) < FirstIndex(s, Firsts(s)[j])
  {
    var init := s[..|s| - 1];
    var r := Firsts(s);
    FirstsAreTheSame(s);
    FirstsAreTheSame(init);
    assert r[i] in Firsts(init);
    if j < |Firsts(init)| {
      FirstsInOrder(init, i, j);
    }
  }

  // Writing one address

  predicate Atext(c: char) { E.AsciiAlphanumeric(c) || c in "!#$%&'*+-/=?^_`{|}~" || c >= '\U{0080}' }

  predicate DotAtom(s: string) {
    s != [] && forall part :: part in E.SplitOn(s, '.') ==> part != [] && forall c :: c in part ==> Atext(c)
  }

  predicate Special(c: char) { c == '"' || c == '\\' }

  function Escaped(local: string): string {
    if local == [] then []
    else
      var c := local[|local| - 1];
      Escaped(local[..|local| - 1]) + (if Special(c) then ['\\', c] else [c])
  }

  function AddressSpec(a: string): string {
    if DotAtom(E.LocalOf(a)) then a else ['"'] + Escaped(E.LocalOf(a)) + ['"', '@'] + E.DomainOf(a)
  }

  method WriteAddress(a: string) returns (out: string)
    ensures out == AddressSpec(a)
  {
    var local, domain := E.LocalOf(a), E.DomainOf(a);
    if DotAtom(local) { return a; }
    out := ['"'];
    for i := 0 to |local|
      invariant out == ['"'] + Escaped(local[..i])
    {
      assert local[..i + 1][..i] == local[..i];
      if Special(local[i]) {
        out := out + ['\\'];
      }
      out := out + [local[i]];
      assert ['\\'] + [local[i]] == ['\\', local[i]];
    }
    assert local[..|local|] == local;
    out := out + ['"', '@'] + domain;
  }

  // Reading one address

  /** The text of a quoted string and what follows its closing quote. */
  function Unquoted(s: string): string {
    if s == [] then []
    else if s[0] == '\\' && |s| > 1 then [s[1]] + Unquoted(s[2..])
    else if s[0] == '"' then s[1..]
    else [s[0]] + Unquoted(s[1..])
  }

  /** An addr-spec of RFC 5322, section 3.4.1, read back to the address it names. */
  function ReadAddress(s: string): string {
    if s != [] && s[0] == '"' then Unquoted(s[1..]) else s
  }

  lemma {:induction false} EscapedFromFront(c: char, rest: string)
    ensures Escaped([c] + rest) == (if Special(c) then ['\\', c] else [c]) + Escaped(rest)
  {
    var s := [c] + rest;
    if rest == [] {
      assert s[..0] == [];
    } else {
      assert s[..|s| - 1] == [c] + rest[..|rest| - 1];
      EscapedFromFront(c, rest[..|rest| - 1]);
    }
  }

  lemma {:induction false} UnquoteEscaped(local: string, tail: string)
    ensures Unquoted(Escaped(local) + ['"'] + tail) == local + tail
  {
    if local == [] {
      assert Escaped(local) + ['"'] + tail == ['"'] + tail;
      assert (['"'] + tail)[1..] == tail && local + tail == tail;
    } else {
      var c, rest := local[0], local[1..];
      assert local == [c] + rest;
      EscapedFromFront(c, rest);
      var s := Escaped(local) + ['"'] + tail;
      var more := Escaped(rest) + ['"'] + tail;
      if Special(c) {
        assert s == ['\\', c] + more && s[2..] == more;
      } else {
        assert s == [c] + more && s[1..] == more;
      }
      UnquoteEscaped(rest, tail);
      assert [c] + (rest + tail) == local + tail;
    }
  }

  lemma DotAtomIsBare(s: string)
    requires DotAtom(s)
    ensures forall c :: c in s ==> Atext(c) || c == '.'
  {
    forall c | c in s ensures Atext(c) || c == '.' {
      if c != '.' {
        E.SplitKeeps(s, '.', c);
        var part :| part in E.SplitOn(s, '.') && c in part;
      }
    }
  }

  lemma PartsOf(a: string)
    requires E.Address(a)
    ensures a == E.LocalOf(a) + (['@'] + E.DomainOf(a))
    ensures a != [] && E.LocalOf(a) != [] && a[0] == E.LocalOf(a)[0]
    ensures forall c :: c in a ==> c in E.LocalOf(a) || c == '@' || c in E.DomainOf(a)
    ensures forall c :: c in E.DomainOf(a) ==> !E.Punctuation(c)
  {
    assert a == E.LocalOf(a) + (['@'] + E.DomainOf(a));
  }

  /** Atoms between single dots, by the characters. */
  predicate Dotted(s: string) {
    s != [] && s[|s| - 1] != '.' && DottedSoFar(s)
  }

  predicate DottedSoFar(s: string) {
    forall i :: 0 <= i < |s| ==> DottedAt(s, i)
  }

  predicate DottedAt(s: string, i: nat)
    requires i < |s|
  {
    if s[i] == '.' then i > 0 && s[i - 1] != '.' else Atext(s[i])
  }

  predicate Atom(p: string) { forall c :: c in p ==> Atext(c) }

  lemma {:induction false} AtomsExactly(s: string)
    ensures var r := E.SplitOn(s, '.');
            var n := |r| - 1;
            && (DottedSoFar(s) <==> (forall k :: 0 <= k < n ==> r[k] != [] && Atom(r[k])) && Atom(r[n]))
            && (r[n] == [] <==> s == [] || s[|s| - 1] == '.')
  {
    if s != [] {
      hide Atext;
      var init, c := s[..|s| - 1], s[|s| - 1];
      AtomsExactly(init);
      var q := E.SplitOn(init, '.');
      var m := |q| - 1;
      var r := E.SplitOn(s, '.');
      DotIsNoAtom();
      assert init + [c] == s;
      forall i | 0 <= i < |init| ensures DottedAt(s, i) == DottedAt(init, i) {
        assert s[i] == init[i] && (i > 0 ==> s[i - 1] == init[i - 1]);
      }
      assert DottedSoFar(s) <==> DottedSoFar(init) && DottedAt(s, |s| - 1);
      if c == '.' {
        assert r == q + [[]] && r[m] == q[m];
        assert forall k :: 0 <= k < m ==> r[k] == q[k];
      } else {
        assert r == q[..m] + [q[m] + [c]];
        assert forall k :: 0 <= k < m ==> r[k] == q[k];
        assert c in q[m] + [c] && forall x :: x in q[m] ==> x in q[m] + [c];
      }
    }
  }

  lemma DotIsNoAtom()
    ensures !Atext('.')
  {
  }

  /** An address is written bare exactly when its local part is atoms between single dots, and else quoted. */
  lemma WrittenBareExactly(a: string)
    requires E.Address(a)
    ensures var local := a[..E.LastIndex(a, '@').value];
            var domain := a[E.LastIndex(a, '@').value + 1..];
            && (Dotted(local) ==> AddressSpec(a) == a)
            && (!Dotted(local) ==> AddressSpec(a) == "\"" + Escaped(local) + "\"@" + domain)
  {
    hide E.LastIndex;
    var local := E.LocalOf(a);
    var r := E.SplitOn(local, '.');
    AtomsExactly(local);
    assert DotAtom(local) <==> Dotted(local) by {
      forall k | 0 <= k < |r| ensures r[k] in r {}
      forall p | p in r ensures exists k :: 0 <= k < |r| && r[k] == p {}
    }
  }

  /** Reading what was written gives the address back. */
  lemma ReadWritten(a: string)
    requires E.Address(a)
    ensures ReadAddress(AddressSpec(a)) == a
  {
    hide E.Address, E.LocalOf, E.DomainOf, DotAtom, Unquoted, Escaped;
    PartsOf(a);
    var local, domain := E.LocalOf(a), E.DomainOf(a);
    if DotAtom(local) {
      DotAtomIsBare(local);
      assert local[0] in local;
    } else {
      var s := AddressSpec(a);
      assert s[1..] == Escaped(local) + ['"'] + (['@'] + domain);
      UnquoteEscaped(local, ['@'] + domain);
    }
  }

  // The text to copy

  datatype CopySeparator = Comma | Semicolon {
    function Char(): char { if Comma? then ',' else ';' }

    function Text(): string { [Char(), ' '] }
  }

  function Joined(list: seq<string>, sep: string): string {
    if list == [] then []
    else if |list| == 1 then list[0]
    else list[0] + sep + Joined(list[1..], sep)
  }

  function Specs(recipients: seq<string>): seq<string> {
    seq(|recipients|, i requires 0 <= i < |recipients| => AddressSpec(recipients[i]))
  }

  function CopyText(recipients: seq<string>, sep: CopySeparator): string { Joined(Specs(recipients), sep.Text()) }

  /** Each address as written, with a comma or semicolon and a space between. */
  lemma CopyTextJoins(recipients: seq<string>, sep: CopySeparator)
    ensures recipients == [] ==> CopyText(recipients, sep) == []
    ensures |recipients| == 1 ==> CopyText(recipients, sep) == AddressSpec(recipients[0])
    ensures |recipients| > 1 ==>
              CopyText(recipients, sep)
                == AddressSpec(recipients[0]) + (if sep == Comma then ", " else "; ") + CopyText(recipients[1..], sep)
  {
    hide AddressSpec;
    if recipients != [] { assert Specs(recipients)[1..] == Specs(recipients[1..]); }
  }

  /** Where a reader of an address list is: in plain text, in a quoted string, or after its backslash. */
  datatype Lex = Outside | Quoted | Escape

  function After(st: Lex, c: char): Lex {
    match st
    case Outside => if c == '"' then Quoted else Outside
    case Quoted => if c == '\\' then Escape else if c == '"' then Outside else Quoted
    case Escape => Quoted
  }

  /** Splits at separators outside quoted strings (RFC 5322, section 3.2.4), and drops a space after each. */
  function Scan(text: string, sep: char, current: string, st: Lex): seq<string>
    decreases |text|
  {
    if text == [] then [current]
    else if st.Outside? && text[0] == sep then
      [current] + Scan(if |text| > 1 && text[1] == ' ' then text[2..] else text[1..], sep, [], Outside)
    else Scan(text[1..], sep, current + [text[0]], After(st, text[0]))
  }

  function SplitList(text: string, sep: char): seq<string> {
    if text == [] then [] else Scan(text, sep, [], Outside)
  }

  /** The reader's state after `s`, unless a bare separator ends an address inside it. */
  function Through(s: string, sep: char, st: Lex): Option<Lex> {
    if s == [] then Some(st)
    else if st.Outside? && s[0] == sep then None
    else Through(s[1..], sep, After(st, s[0]))
  }

  lemma {:induction false} ThroughBoth(a: string, b: string, sep: char, st: Lex)
    requires Through(a, sep, st).Some?
    ensures Through(a + b, sep, st) == Through(b, sep, Through(a, sep, st).value)
  {
    if a == [] {
      assert a + b == b;
    } else {
      assert (a + b)[1..] == a[1..] + b;
      ThroughBoth(a[1..], b, sep, After(st, a[0]));
    }
  }

  lemma {:induction false} BareThrough(s: string, sep: char)
    requires sep !in s && '"' !in s
    ensures Through(s, sep, Outside) == Some(Outside)
  {
    if s != [] {
      BareThrough(s[1..], sep);
    }
  }

  lemma {:induction false} EscapedThrough(local: string, sep: char)
    ensures Through(Escaped(local), sep, Quoted) == Some(Quoted)
  {
    if local != [] {
      var init, c := local[..|local| - 1], local[|local| - 1];
      EscapedThrough(init, sep);
      var last := if Special(c) then ['\\', c] else [c];
      ThroughBoth(Escaped(init), last, sep, Quoted);
      EscapedCharThrough(c, sep);
    }
  }

  lemma EscapedCharThrough(c: char, sep: char)
    ensures Through(if Special(c) then ['\\', c] else [c], sep, Quoted) == Some(Quoted)
  {
    assert ['\\', c][1..] == [c] && [c][1..] == [];
    assert Through([], sep, Quoted) == Some(Quoted);
    assert Special(c) ==> Through([c], sep, Escape) == Some(Quoted);
  }

  lemma QuotedThrough(local: string, rest: string, sep: char)
    requires sep !in rest && '"' !in rest && (sep == ',' || sep == ';')
    ensures Through(['"'] + Escaped(local) + ['"'] + rest, sep, Outside) == Some(Outside)
  {
    var tail := ['"'] + rest;
    var inside := Escaped(local) + tail;
    EscapedThrough(local, sep);
    BareThrough(rest, sep);
    assert tail[1..] == rest;
    ThroughBoth(Escaped(local), tail, sep, Quoted);
    assert ['"'] + Escaped(local) + ['"'] + rest == ['"'] + inside && (['"'] + inside)[1..] == inside;
  }

  /** A written address never shows a bare separator, and ends outside any quotes. */
  lemma SpecThrough(a: string, sep: char)
    requires E.Address(a) && (sep == ',' || sep == ';')
    ensures Through(AddressSpec(a), sep, Outside) == Some(Outside)
  {
    hide Through, E.Address, E.LocalOf, E.DomainOf, DotAtom;
    PartsOf(a);
    var local, domain := E.LocalOf(a), E.DomainOf(a);
    if DotAtom(local) {
      DotAtomIsBare(local);
      BareThrough(a, sep);
    } else {
      QuotedThrough(local, ['@'] + domain, sep);
      assert AddressSpec(a) == ['"'] + Escaped(local) + ['"'] + (['@'] + domain);
    }
  }

  lemma {:induction false} ScanThrough(s: string, rest: string, sep: char, current: string, st: Lex)
    requires Through(s, sep, st).Some?
    ensures Scan(s + rest, sep, current, st) == Scan(rest, sep, current + s, Through(s, sep, st).value)
  {
    if s == [] {
      assert s + rest == rest && current + s == current;
    } else {
      assert (s + rest)[1..] == s[1..] + rest;
      ScanThrough(s[1..], rest, sep, current + [s[0]], After(st, s[0]));
      assert current + [s[0]] + s[1..] == current + s;
    }
  }

  /** Joining with the separator, with or without the space after it, is undone by splitting. */
  lemma {:induction false} SplitJoined(list: seq<string>, sep: string)
    requires |sep| == 1 || (|sep| == 2 && sep[1] == ' ')
    requires forall s :: s in list ==> s != [] && s[0] != ' ' && Through(s, sep[0], Outside) == Some(Outside)
    ensures SplitList(Joined(list, sep), sep[0]) == list
  {
    if |list| == 1 {
      var s := list[0];
      ScanThrough(s, [], sep[0], [], Outside);
      assert s + [] == s && [] + s == s;
    } else if |list| > 1 {
      var s := list[0];
      var rest := Joined(list[1..], sep);
      assert forall x :: x in list[1..] ==> x in list;
      SplitJoined(list[1..], sep);
      assert list[1] in list;
      assert rest != [] && rest[0] == list[1][0];
      var tail := sep + rest;
      assert s + sep + rest == s + tail;
      ScanThrough(s, tail, sep[0], [], Outside);
      assert [] + s == s;
      assert (if |tail| > 1 && tail[1] == ' ' then tail[2..] else tail[1..]) == rest;
      assert list == [s] + list[1..];
    }
  }

  predicate Addresses(recipients: seq<string>) { forall a :: a in recipients ==> E.Address(a) }

  lemma SpecStarts(a: string)
    requires E.Address(a)
    ensures AddressSpec(a) != [] && AddressSpec(a)[0] != ' '
  {
    hide E.Address, E.LocalOf, E.DomainOf, DotAtom;
    PartsOf(a);
    var local := E.LocalOf(a);
    if DotAtom(local) {
      DotAtomIsBare(local);
      assert local[0] in local;
    }
  }

  /** What a reader makes of a list: the addresses its addr-specs name. */
  function ReadList(specs: seq<string>): seq<string> {
    seq(|specs|, i requires 0 <= i < |specs| => ReadAddress(specs[i]))
  }

  lemma ReadListOfSpecs(recipients: seq<string>)
    requires Addresses(recipients)
    ensures ReadList(Specs(recipients)) == recipients
  {
    forall i | 0 <= i < |recipients| ensures ReadAddress(AddressSpec(recipients[i])) == recipients[i] {
      ReadWritten(recipients[i]);
    }
  }

  /** A reader that respects quoting gets exactly the recipients back, in order, whichever separator is used. */
  lemma CopyTextReadsBack(recipients: seq<string>, sep: CopySeparator)
    requires Addresses(recipients)
    ensures ReadList(SplitList(CopyText(recipients, sep), sep.Char())) == recipients
  {
    forall i | 0 <= i < |recipients|
      ensures AddressSpec(recipients[i]) != [] && AddressSpec(recipients[i])[0] != ' '
      ensures Through(AddressSpec(recipients[i]), sep.Char(), Outside) == Some(Outside)
    {
      assert recipients[i] in recipients;
      SpecStarts(recipients[i]);
      SpecThrough(recipients[i], sep.Char());
    }
    SplitJoined(Specs(recipients), sep.Text());
    ReadListOfSpecs(recipients);
  }
}
