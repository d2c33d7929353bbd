/**
  The JavaScript values the migration handles. A parsed CSV line is an untyped
  object whose properties are the header's column names and whose values are
  the cell texts; reading a missing property yields `undefined`.
 */
module Js {

  /** A JavaScript value; numbers are modelled as integers. */
  datatype Value = Undefined | Str(s: string) | Num(n: int) | Bool(b: bool)

  /** JavaScript truthiness: `undefined`, `""`, `0` and `false` are the falsy values. */
  predicate Truthy(v: Value)
  {
    match v
    case Undefined => false
    case Str(s) => s != ""
    case Num(n) => n != 0
    case Bool(b) => b
  }

  /** One data line of an export file, keyed by the header's column names. */
  type CsvRow = map<string, string>

  /** `row.column` on a parsed line: the cell text, or `undefined` for a column the file lacks. */
  function Cell(row: CsvRow, column: string): Value
  {
    if column in row then Str(row[column]) else Undefined
  }

  /** A cell is never a number or a boolean: the CSV parser yields text only. */
  predicate IsCell(v: Value)
  {
    v.Str? || v.Undefined?
  }

  lemma CellIsText(row: CsvRow, column: string)
    ensures IsCell(Cell(row, column))
    ensures Cell(row, column).Str? <==> column in row
  {
  }

  function DigitChar(d: nat): (c: char)
    requires d < 10
    ensures '0' <= c <= '9'
  {
    "0123456789"[d]
  }

  /** The decimal text of a natural number, as template literals and `String(n)` render it. */
  function NatToString(n: nat): (s: string)
    ensures 1 <= |s|
    ensures n < 10 <==> |s| == 1
    ensures forall k :: 0 <= k < |s| ==> '0' <= s[k] <= '9'
    decreases n
  {
    if n < 10 then [DigitChar(n)] else NatToString(n / 10) + [DigitChar(n % 10)]
  }

  /** The text of a number of two or more digits is the text of its tens followed by its last digit. */
  lemma NatToStringLast(n: nat)
    requires n >= 10
    ensures NatToString(n)[..|NatToString(n)| - 1] == NatToString(n / 10)
    ensures NatToString(n)[|NatToString(n)| - 1] == DigitChar(n % 10)
  {
  }

  lemma DigitCharInjective(a: nat, b: nat)
    requires a < 10 && b < 10 && DigitChar(a) == DigitChar(b)
    ensures a == b
  {
  }

  /** Distinct numbers have distinct decimal texts. */
  lemma {:induction false} NatToStringInjective(m: nat, n: nat)
    requires NatToString(m) == NatToString(n)
    ensures m == n
    decreases m
  {
    if m >= 10 && n >= 10 {
      NatToStringLast(m);
      NatToStringLast(n);
      NatToStringInjective(m / 10, n / 10);
      DigitCharInjective(m % 10, n % 10);
    } else if m < 10 && n < 10 {
      DigitCharInjective(m, n);
    }
  }

  /** `String(v)` for the values a cell or a flag can hold. */
  function ToPropertyKey(v: Value): string
  {
    match v
    case Undefined => "undefined"
    case Str(s) => s
    case Num(n) => if n < 0 then "-" + NatToString(-n) else NatToString(n)
    case Bool(b) => if b then "true" else "false"
  }
}
