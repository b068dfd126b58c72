/**
 * The three pieces of Python's text handling the report relies on: `str(n)` for a
 * non-negative `int`, the ordering `sorted()` uses on `str` keys (code point by code
 * point, a proper prefix first), and left-justified padding (`f"{s:<{n}}"`).
 */
module Text {

  /** The character of one decimal digit. */
  function DigitChar(d: nat): (c: char)
    requires d < 10
    ensures '0' <= c <= '9' && c as int - '0' as int == d
  {
    ['0', '1', '2', '3', '4', '5', '6', '7', '8', '9'][d]
  }

  predicate IsDigit(c: char) {
    '0' <= c <= '9'
  }

  /** `str(n)`: the decimal digits of `n`, most significant first, no leading zero. */
  function NatToString(n: nat): (s: string)
    ensures |s| >= 1
    ensures forall i :: 0 <= i < |s| ==> IsDigit(s[i])
    ensures s[0] == '0' ==> n == 0
    decreases n
  {
    if n < 10 then [DigitChar(n)] else NatToString(n / 10) + [DigitChar(n % 10)]
  }

  /** The value of a string of decimal digits (what `int(s)` gives back). */
  function DecimalValue(s: string): nat
    requires forall i :: 0 <= i < |s| ==> IsDigit(s[i])
  {
    if s == [] then 0
    else
      assert IsDigit(s[|s| - 1]);
      DecimalValue(s[..|s| - 1]) * 10 + (s[|s| - 1] as int - '0' as int)
  }

  /** `int(str(n)) == n`: the digits `str` writes stand for `n`. */
  lemma {:induction false} NatToStringRoundTrip(n: nat)
    ensures DecimalValue(NatToString(n)) == n
    decreases n
  {
    var s := NatToString(n);
    if n >= 10 {
      NatToStringRoundTrip(n / 10);
      assert s[..|s| - 1] == NatToString(n / 10);
    } else {
      assert s[..|s| - 1] == [];
    }
  }

  /** Python's `a < b` on `str`: lexicographic by code point, a proper prefix first. */
  predicate Below(a: string, b: string)
    decreases |a|
  {
    if a == [] then b != []
    else b != [] && (a[0] < b[0] || (a[0] == b[0] && Below(a[1..], b[1..])))
  }

  lemma {:induction false} BelowIrreflexive(a: string)
    ensures !Below(a, a)
    decreases |a|
  {
    if a != [] {
      BelowIrreflexive(a[1..]);
    }
  }

  lemma {:induction false} BelowTransitive(a: string, b: string, c: string)
    requires Below(a, b) && Below(b, c)
    ensures Below(a, c)
    decreases |a|
  {
    if a != [] && a[0] == b[0] && b[0] == c[0] {
      BelowTransitive(a[1..], b[1..], c[1..]);
    }
  }

  /** Any two different strings are ordered one way and not the other. */
  lemma {:induction false} BelowTotal(a: string, b: string)
    ensures a != b <==> (Below(a, b) || Below(b, a))
    ensures !(Below(a, b) && Below(b, a))
    decreases |a|
  {
    if a != [] && b != [] {
      BelowTotal(a[1..], b[1..]);
      if a[0] == b[0] && a[1..] == b[1..] {
        assert a == [a[0]] + a[1..] && b == [b[0]] + b[1..];
      }
    } else if a == [] && b == [] {
    } else {
    }
  }

  /** Every character of `t` is a blank. */
  predicate AllSpaces(t: string) {
    forall i :: 0 <= i < |t| ==> t[i] == ' '
  }

  /** `n` spaces. */
  function Spaces(n: nat): (r: string)
    ensures |r| == n && AllSpaces(r)
  {
    seq(n, _ => ' ')
  }

  /**
   * `f"{s:<{width}}"`: `s` first, then spaces up to `width` characters; a longer `s`
   * is kept whole.
   */
  function Pad(s: string, width: nat): (r: string)
    ensures |r| == if |s| < width then width else |s|
    ensures r[..|s|] == s
  {
    if |s| < width then s + Spaces(width - |s|) else s
  }

  /** What `Pad` adds after `s` is blanks only. */
  lemma PadAddsSpaces(s: string, width: nat)
    ensures AllSpaces(Pad(s, width)[|s|..])
  {
    var r := Pad(s, width);
    if |s| < width {
      assert r[|s|..] == Spaces(width - |s|);
    }
  }

  /** `"".join(f"{c:<{x + 4}}" for c, x in zip(cells, w))`: each cell padded to its width plus four. */
  function PadJoin(cells: seq<string>, w: seq<nat>): string
    decreases |cells|
  {
    if cells == [] || w == [] then "" else Pad(cells[0], w[0] + 4) + PadJoin(cells[1..], w[1..])
  }

  /** Where cell `i` starts in a joined line whose earlier cells fit their widths. */
  function Offset(w: seq<nat>, i: nat): nat
    requires i <= |w|
  {
    if i == 0 then 0 else w[0] + 4 + Offset(w[1..], i - 1)
  }

  /** Every cell before the `i`-th fits in its width plus four. */
  predicate FitsBefore(cells: seq<string>, w: seq<nat>, i: nat)
    requires i <= |cells| && i <= |w|
  {
    forall k :: 0 <= k < i ==> |cells[k]| <= w[k] + 4
  }

  /** The cells that fit before the `i`-th still fit once the first cell is dropped. */
  lemma FitsBeforeTail(cells: seq<string>, w: seq<nat>, i: nat)
    requires 0 < i <= |cells| && i <= |w| && FitsBefore(cells, w, i)
    ensures FitsBefore(cells[1..], w[1..], i - 1)
  {
    forall k | 0 <= k < i - 1 ensures |cells[1..][k]| <= w[1..][k] + 4 {
      assert cells[1..][k] == cells[k + 1];
    }
  }

  /** When the cells before the `i`-th fit, the `i`-th cell's text starts at its offset. */
  lemma {:induction false} CellStartsAtOffset(cells: seq<string>, w: seq<nat>, i: nat)
    requires i < |cells| && i < |w| && FitsBefore(cells, w, i)
    ensures Offset(w, i) + |cells[i]| <= |PadJoin(cells, w)|
    ensures forall q :: 0 <= q < |cells[i]| ==> PadJoin(cells, w)[Offset(w, i) + q] == cells[i][q]
    decreases i
  {
    var first := Pad(cells[0], w[0] + 4);
    var rest := PadJoin(cells[1..], w[1..]);
    assert PadJoin(cells, w) == first + rest;
    if i == 0 {
      forall q | 0 <= q < |cells[0]| ensures (first + rest)[q] == cells[0][q] {
        assert first[..|cells[0]|][q] == first[q];
      }
    } else {
      FitsBeforeTail(cells, w, i);
      CellStartsAtOffset(cells[1..], w[1..], i - 1);
      assert cells[1..][i - 1] == cells[i];
    }
  }

  /** The same, as a slice of the joined line. */
  lemma CellAtOffset(cells: seq<string>, w: seq<nat>, i: nat)
    requires i < |cells| && i < |w| && FitsBefore(cells, w, i)
    ensures Offset(w, i) + |cells[i]| <= |PadJoin(cells, w)|
    ensures PadJoin(cells, w)[Offset(w, i)..Offset(w, i) + |cells[i]|] == cells[i]
  {
    CellStartsAtOffset(cells, w, i);
    var line, o := PadJoin(cells, w), Offset(w, i);
    forall q | 0 <= q < |cells[i]| ensures line[o..o + |cells[i]|][q] == cells[i][q] {
    }
  }
}
