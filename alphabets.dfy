/**
 * The character classes of the generator, their fixed alphabets, the options
 * the user ticks, and the pool of characters the options allow
 * (index.js:113-137), together with the decoy alphabet used by the reveal
 * animation (index.js:80).
 */
module Alphabets {

  datatype CharClass = Lowercase | Uppercase | Digit | Symbol

  const LOWERCASE_CHARS: string := "abcdefghijklmnopqrstuvwxyz"
  const UPPERCASE_CHARS: string := "ABCDEFGHIJKLMNOPQRSTUVWXYZ"
  const NUMBER_CHARS: string := "0123456789"
  const SYMBOL_CHARS: string := "!@#$%^&*_"

  /** Characters the reveal animation shows at positions not yet masked. */
  const DECOY_CHARS: string := "ABCDEFGHIJKLMNOPQRSTUVWXYZabcdefghijklmnopqrstuvwxyz0123456789!@#$%^&*()"

  function Alphabet(c: CharClass): string {
    match c
    case Lowercase => LOWERCASE_CHARS
    case Uppercase => UPPERCASE_CHARS
    case Digit => NUMBER_CHARS
    case Symbol => SYMBOL_CHARS
  }

  /** The four check boxes: include lowercase, uppercase, numbers, symbols. */
  datatype Options = Options(lowercase: bool, uppercase: bool, numbers: bool, symbols: bool)

  predicate IsEnabled(o: Options, c: CharClass) {
    match c
    case Lowercase => o.lowercase
    case Uppercase => o.uppercase
    case Digit => o.numbers
    case Symbol => o.symbols
  }

  /** At least one box is ticked. */
  predicate AnyEnabled(o: Options) {
    o.lowercase || o.uppercase || o.numbers || o.symbols
  }

  /** The enabled classes, in the fixed order lowercase, uppercase, digit, symbol. */
  function Enabled(o: Options): (cs: seq<CharClass>)
    ensures forall k :: 0 <= k < |cs| ==> IsEnabled(o, cs[k])
    ensures |cs| > 0 <==> AnyEnabled(o)
  {
    Listed(o.lowercase, Lowercase) + Listed(o.uppercase, Uppercase) + Listed(o.numbers, Digit) + Listed(o.symbols, Symbol)
  }

  /** The class, if its box is ticked. */
  function Listed(ticked: bool, c: CharClass): seq<CharClass> {
    if ticked then [c] else []
  }

  /** The class's alphabet, if its box is ticked. */
  function Part(ticked: bool, c: CharClass): string {
    if ticked then Alphabet(c) else ""
  }

  /** Position of a class in the fixed order lowercase, uppercase, digit, symbol. */
  function Rank(c: CharClass): nat {
    match c
    case Lowercase => 0
    case Uppercase => 1
    case Digit => 2
    case Symbol => 3
  }

  /** Every enabled class is listed, and the list follows the fixed class order. */
  lemma EnabledComplete(o: Options, c: CharClass)
    requires IsEnabled(o, c)
    ensures exists k :: 0 <= k < |Enabled(o)| && Enabled(o)[k] == c
  {
    var cs := Enabled(o);
    var l := if o.lowercase then [Lowercase] else [];
    var u := if o.uppercase then [Uppercase] else [];
    var d := if o.numbers then [Digit] else [];
    match c
    case Lowercase => assert cs[0] == c;
    case Uppercase => assert cs[|l|] == c;
    case Digit => assert cs[|l| + |u|] == c;
    case Symbol => assert cs[|l| + |u| + |d|] == c;
  }

  lemma EnabledOrdered(o: Options)
    ensures forall i, j :: 0 <= i < j < |Enabled(o)| ==> Rank(Enabled(o)[i]) < Rank(Enabled(o)[j])
  {
  }

  /** The pool `validChars`: the enabled alphabets concatenated in class order. */
  function Pool(o: Options): (p: string)
    ensures |p| > 0 <==> AnyEnabled(o)
  {
    Part(o.lowercase, Lowercase) + Part(o.uppercase, Uppercase) + Part(o.numbers, Digit) + Part(o.symbols, Symbol)
  }

  /** The class a character belongs to, decided by code-point range. */
  function ClassOf(ch: char): (r: Option<CharClass>) {
    if 'a' <= ch <= 'z' then Some(Lowercase)
    else if 'A' <= ch <= 'Z' then Some(Uppercase)
    else if '0' <= ch <= '9' then Some(Digit)
    else if ch in SYMBOL_CHARS then Some(Symbol)
    else None
  }

  datatype Option<T> = None | Some(value: T)

  /** The letters and digits are contiguous code-point ranges. */
  lemma LowercaseRange(ch: char)
    ensures ch in LOWERCASE_CHARS ==> 'a' <= ch <= 'z'
  {
    assert LOWERCASE_CHARS == seq(26, i requires 0 <= i < 26 => ('a' as int + i) as char);
  }

  lemma UppercaseRange(ch: char)
    ensures ch in UPPERCASE_CHARS ==> 'A' <= ch <= 'Z'
  {
    assert UPPERCASE_CHARS == seq(26, i requires 0 <= i < 26 => ('A' as int + i) as char);
  }

  lemma DigitRange(ch: char)
    ensures ch in NUMBER_CHARS ==> '0' <= ch <= '9'
  {
    assert NUMBER_CHARS == seq(10, i requires 0 <= i < 10 => ('0' as int + i) as char);
  }

  /** Every character of an alphabet is classified as that alphabet's class. */
  lemma AlphabetClass(c: CharClass, ch: char)
    requires ch in Alphabet(c)
    ensures ClassOf(ch) == Some(c)
  {
    LowercaseRange(ch);
    UppercaseRange(ch);
    DigitRange(ch);
    if c == Symbol {
      assert !('a' <= ch <= 'z') && !('A' <= ch <= 'Z') && !('0' <= ch <= '9');
    }
  }

  /** No character belongs to two alphabets. */
  lemma AlphabetsDisjoint(c1: CharClass, c2: CharClass, ch: char)
    requires ch in Alphabet(c1) && ch in Alphabet(c2)
    ensures c1 == c2
  {
    AlphabetClass(c1, ch);
    AlphabetClass(c2, ch);
  }

  /** A character is in a concatenation exactly when it is in one of the parts. */
  lemma InConcat(a: string, b: string, ch: char)
    ensures ch in a + b <==> ch in a || ch in b
  {
    if ch in a + b {
      var k :| 0 <= k < |a + b| && (a + b)[k] == ch;
      if k >= |a| {
        assert b[k - |a|] == ch;
      }
    }
    if ch in b {
      var k :| 0 <= k < |b| && b[k] == ch;
      assert (a + b)[|a| + k] == ch;
    }
  }

  /** A character is in the pool exactly when some enabled class's alphabet holds it. */
  lemma PoolMembership(o: Options, ch: char)
    ensures ch in Pool(o) <==> exists c :: IsEnabled(o, c) && ch in Alphabet(c)
  {
    var l := if o.lowercase then LOWERCASE_CHARS else "";
    var u := if o.uppercase then UPPERCASE_CHARS else "";
    var d := if o.numbers then NUMBER_CHARS else "";
    var y := if o.symbols then SYMBOL_CHARS else "";
    assert Pool(o) == l + u + d + y;
    InConcat(l + u + d, y, ch);
    InConcat(l + u, d, ch);
    InConcat(l, u, ch);
    assert ch in Pool(o) <==> ch in l || ch in u || ch in d || ch in y;
    if ch in l {
      assert IsEnabled(o, Lowercase) && ch in Alphabet(Lowercase);
    } else if ch in u {
      assert IsEnabled(o, Uppercase) && ch in Alphabet(Uppercase);
    } else if ch in d {
      assert IsEnabled(o, Digit) && ch in Alphabet(Digit);
    } else if ch in y {
      assert IsEnabled(o, Symbol) && ch in Alphabet(Symbol);
    }
  }

  /** Characters of a class that is not enabled never occur in the pool. */
  lemma DisabledNotInPool(o: Options, c: CharClass, ch: char)
    requires !IsEnabled(o, c) && ch in Alphabet(c)
    ensures ch !in Pool(o)
  {
    if ch in Pool(o) {
      PoolMembership(o, ch);
      var c' :| IsEnabled(o, c') && ch in Alphabet(c');
      AlphabetsDisjoint(c, c', ch);
    }
  }
}
