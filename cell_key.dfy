/**
 * The string key of a cell, `l<layer>-r<row>-c<col>` with each index in
 * decimal. The same key names the cell's tag, its rendered element and
 * the endpoints of a connector, so it must never collide.
 */
module CellKey {
  import opened Types

  predicate IsDigit(ch: char)
  {
    '0' <= ch <= '9'
  }

  predicate AllDigits(s: string)
  {
    forall i :: 0 <= i < |s| ==> IsDigit(s[i])
  }

  function DigitChar(d: nat): (ch: char)
    requires d < 10
    ensures IsDigit(ch)
  {
    (('0' as int) + d) as char
  }

  function DigitValue(ch: char): (d: nat)
    requires IsDigit(ch)
    ensures d < 10
  {
    (ch as int) - ('0' as int)
  }

  /** The decimal numeral of `n`, as a template literal prints a non-negative integer. */
  function NatToString(n: nat): (s: string)
    ensures |s| > 0 && AllDigits(s)
    ensures s[0] == '0' ==> n == 0
  {
    if n < 10 then [DigitChar(n)] else NatToString(n / 10) + [DigitChar(n % 10)]
  }

  /** The number a string of decimal digits denotes; the inverse of NatToString. */
  function ParseNat(s: string): nat
    requires AllDigits(s)
  {
    if s == [] then 0 else 10 * ParseNat(s[..|s| - 1]) + DigitValue(s[|s| - 1])
  }

  lemma {:induction false} ParseNatToString(n: nat)
    ensures ParseNat(NatToString(n)) == n
  {
    var s := NatToString(n);
    if n >= 10 {
      assert s[..|s| - 1] == NatToString(n / 10);
      ParseNatToString(n / 10);
    }
  }

  lemma NatToStringInjective(m: nat, n: nat)
    ensures NatToString(m) == NatToString(n) <==> m == n
  {
    if NatToString(m) == NatToString(n) {
      ParseNatToString(m);
      ParseNatToString(n);
    }
  }

  /** One component of a key: its letter followed by the decimal index. */
  function Part(letter: char, n: nat): (s: string)
    requires letter != '-'
    ensures forall i :: 0 <= i < |s| ==> s[i] != '-'
  {
    assert AllDigits(NatToString(n));
    [letter] + NatToString(n)
  }

  function Key(layer: nat, row: nat, col: nat): string
  {
    Part('l', layer) + "-" + Part('r', row) + "-" + Part('c', col)
  }

  function CellId(c: Cell): string
  {
    Key(c.layer, c.row, c.col)
  }

  /** A separator that occurs in neither head splits a concatenation in one way only. */
  lemma SplitAtSeparator(a: string, b: string, a': string, b': string, sep: char)
    requires forall i :: 0 <= i < |a| ==> a[i] != sep
    requires forall i :: 0 <= i < |a'| ==> a'[i] != sep
    requires a + [sep] + b == a' + [sep] + b'
    ensures a == a' && b == b'
  {
    var s := a + [sep] + b;
    assert s[|a|] == sep && s[|a'|] == sep;
    assert forall i :: 0 <= i < |a| ==> s[i] != sep;
    assert forall i :: 0 <= i < |a'| ==> s[i] != sep;
    assert a == s[..|a|];
    assert a' == s[..|a'|];
    assert b == s[|a| + 1..];
    assert b' == s[|a'| + 1..];
  }

  lemma PartInjective(letter: char, m: nat, n: nat)
    requires letter != '-'
    ensures Part(letter, m) == Part(letter, n) <==> m == n
  {
    if Part(letter, m) == Part(letter, n) {
      assert NatToString(m) == Part(letter, m)[1..];
      assert NatToString(n) == Part(letter, n)[1..];
      NatToStringInjective(m, n);
    }
  }

  /** A key is its layer component, a separator, and the rest. */
  lemma KeyShape(l: nat, r: nat, c: nat)
    ensures Key(l, r, c) == Part('l', l) + ['-'] + (Part('r', r) + ['-'] + Part('c', c))
  {
  }

  /** Distinct (layer, row, col) triples have distinct keys, and equal triples equal keys. */
  lemma KeyInjective(l: nat, r: nat, c: nat, l': nat, r': nat, c': nat)
    ensures Key(l, r, c) == Key(l', r', c') <==> (l == l' && r == r' && c == c')
  {
    if Key(l, r, c) == Key(l', r', c') {
      KeyShape(l, r, c);
      KeyShape(l', r', c');
      SplitAtSeparator(Part('l', l), Part('r', r) + ['-'] + Part('c', c),
                       Part('l', l'), Part('r', r') + ['-'] + Part('c', c'), '-');
      SplitAtSeparator(Part('r', r), Part('c', c), Part('r', r'), Part('c', c'), '-');
      PartInjective('l', l, l');
      PartInjective('r', r, r');
      PartInjective('c', c, c');
    }
  }

  /** Two cells share a key exactly when they are the same cell. */
  lemma CellIdInjective(a: Cell, b: Cell)
    ensures CellId(a) == CellId(b) <==> a == b
  {
    KeyInjective(a.layer, a.row, a.col, b.layer, b.row, b.col);
  }
}
