/** The Bech32 characters and their symbols, src/bech32.cpp. */
module Bech32Charset {
  import opened Wrappers
  import opened Bech32Checksum

  // ---------------------------------------------------------------- characters

  /** The character set for encoding. */
  function Charset(v: Symbol): char {
    if v == 0 then 'q' else if v == 1 then 'p' else if v == 2 then 'z' else if v == 3 then 'r' else
    if v == 4 then 'y' else if v == 5 then '9' else if v == 6 then 'x' else if v == 7 then '8' else
    if v == 8 then 'g' else if v == 9 then 'f' else if v == 10 then '2' else if v == 11 then 't' else
    if v == 12 then 'v' else if v == 13 then 'd' else if v == 14 then 'w' else if v == 15 then '0' else
    if v == 16 then 's' else if v == 17 then '3' else if v == 18 then 'j' else if v == 19 then 'n' else
    if v == 20 then '5' else if v == 21 then '4' else if v == 22 then 'k' else if v == 23 then 'h' else
    if v == 24 then 'c' else if v == 25 then 'e' else if v == 26 then '6' else if v == 27 then 'm' else
    if v == 28 then 'u' else if v == 29 then 'a' else if v == 30 then '7' else 'l'
  }

  function LowerCase(c: char): char {
    if 'A' <= c <= 'Z' then ((c as int) - ('A' as int) + ('a' as int)) as char else c
  }

  /** The character set for decoding, by lower-case character. */
  function Position(c: char): Option<Symbol> {
    if c == 'q' then Some(0) else if c == 'p' then Some(1) else if c == 'z' then Some(2) else if c == 'r' then
        Some(3) else
    if c == 'y' then Some(4) else if c == '9' then Some(5) else if c == 'x' then Some(6) else if c == '8' then
        Some(7) else
    if c == 'g' then Some(8) else if c == 'f' then Some(9) else if c == '2' then Some(10) else if c == 't' then
        Some(11) else
    if c == 'v' then Some(12) else if c == 'd' then Some(13) else if c == 'w' then Some(14) else if c == '0' then
        Some(15) else
    if c == 's' then Some(16) else if c == '3' then Some(17) else if c == 'j' then Some(18) else if c == 'n' then
        Some(19) else
    if c == '5' then Some(20) else if c == '4' then Some(21) else if c == 'k' then Some(22) else if c == 'h' then
        Some(23) else
    if c == 'c' then Some(24) else if c == 'e' then Some(25) else if c == '6' then Some(26) else if c == 'm' then
        Some(27) else
    if c == 'u' then Some(28) else if c == 'a' then Some(29) else if c == '7' then Some(30) else if c == 'l' then
        Some(31) else
    None
  }

  function CharsetRev(c: char): Option<Symbol> {
    Position(LowerCase(c))
  }

  predicate IsLower(c: char) { 'a' <= c <= 'z' }
  predicate IsUpper(c: char) { 'A' <= c <= 'Z' }

  /** A letter or another printable character. */
  predicate CharOk(c: char) {
    IsLower(c) || IsUpper(c) || 33 <= c as int <= 126
  }

  predicate Plain(c: char) {
    CharOk(c) && !IsUpper(c) && c != '1'
  }

  lemma CharsetText0()
    ensures Charset(0) == 'q' && Charset(1) == 'p' && Charset(2) == 'z' && Charset(3) == 'r'
    ensures Charset(4) == 'y' && Charset(5) == '9' && Charset(6) == 'x' && Charset(7) == '8'
  {
  }

  lemma CharsetText1()
    ensures Charset(8) == 'g' && Charset(9) == 'f' && Charset(10) == '2' && Charset(11) == 't'
    ensures Charset(12) == 'v' && Charset(13) == 'd' && Charset(14) == 'w' && Charset(15) == '0'
  {
  }

  lemma CharsetText2()
    ensures Charset(16) == 's' && Charset(17) == '3' && Charset(18) == 'j' && Charset(19) == 'n'
    ensures Charset(20) == '5' && Charset(21) == '4' && Charset(22) == 'k' && Charset(23) == 'h'
  {
  }

  lemma CharsetText3()
    ensures Charset(24) == 'c' && Charset(25) == 'e' && Charset(26) == '6' && Charset(27) == 'm'
    ensures Charset(28) == 'u' && Charset(29) == 'a' && Charset(30) == '7' && Charset(31) == 'l'
  {
  }

  /** The characters in the order of their symbols. */
  lemma CharsetText()
    ensures Charset(0) == 'q' && Charset(1) == 'p' && Charset(2) == 'z' && Charset(3) == 'r'
    ensures Charset(4) == 'y' && Charset(5) == '9' && Charset(6) == 'x' && Charset(7) == '8'
    ensures Charset(8) == 'g' && Charset(9) == 'f' && Charset(10) == '2' && Charset(11) == 't'
    ensures Charset(12) == 'v' && Charset(13) == 'd' && Charset(14) == 'w' && Charset(15) == '0'
    ensures Charset(16) == 's' && Charset(17) == '3' && Charset(18) == 'j' && Charset(19) == 'n'
    ensures Charset(20) == '5' && Charset(21) == '4' && Charset(22) == 'k' && Charset(23) == 'h'
    ensures Charset(24) == 'c' && Charset(25) == 'e' && Charset(26) == '6' && Charset(27) == 'm'
    ensures Charset(28) == 'u' && Charset(29) == 'a' && Charset(30) == '7' && Charset(31) == 'l'
  {
    hide Charset;
    CharsetText0();
    CharsetText1();
    CharsetText2();
    CharsetText3();
  }

  lemma CharsetPart0(v: Symbol)
    requires 0 <= v < 8
    ensures Position(Charset(v)) == Some(v) && Plain(Charset(v))
  {
    if v == 0 {
      assert Charset(v) == 'q';
    } else if v == 1 {
      assert Charset(v) == 'p';
    } else if v == 2 {
      assert Charset(v) == 'z';
    } else if v == 3 {
      assert Charset(v) == 'r';
    } else if v == 4 {
      assert Charset(v) == 'y';
    } else if v == 5 {
      assert Charset(v) == '9';
    } else if v == 6 {
      assert Charset(v) == 'x';
    } else if v == 7 {
      assert Charset(v) == '8';
    }
  }

  lemma CharsetPart1(v: Symbol)
    requires 8 <= v < 16
    ensures Position(Charset(v)) == Some(v) && Plain(Charset(v))
  {
    if v == 8 {
      assert Charset(v) == 'g';
    } else if v == 9 {
      assert Charset(v) == 'f';
    } else if v == 10 {
      assert Charset(v) == '2';
    } else if v == 11 {
      assert Charset(v) == 't';
    } else if v == 12 {
      assert Charset(v) == 'v';
    } else if v == 13 {
      assert Charset(v) == 'd';
    } else if v == 14 {
      assert Charset(v) == 'w';
    } else if v == 15 {
      assert Charset(v) == '0';
    }
  }

  lemma CharsetPart2(v: Symbol)
    requires 16 <= v < 24
    ensures Position(Charset(v)) == Some(v) && Plain(Charset(v))
  {
    if v == 16 {
      assert Charset(v) == 's';
    } else if v == 17 {
      assert Charset(v) == '3';
    } else if v == 18 {
      assert Charset(v) == 'j';
    } else if v == 19 {
      assert Charset(v) == 'n';
    } else if v == 20 {
      assert Charset(v) == '5';
    } else if v == 21 {
      assert Charset(v) == '4';
    } else if v == 22 {
      assert Charset(v) == 'k';
    } else if v == 23 {
      assert Charset(v) == 'h';
    }
  }

  lemma CharsetPart3(v: Symbol)
    requires 24 <= v < 32
    ensures Position(Charset(v)) == Some(v) && Plain(Charset(v))
  {
    if v == 24 {
      assert Charset(v) == 'c';
    } else if v == 25 {
      assert Charset(v) == 'e';
    } else if v == 26 {
      assert Charset(v) == '6';
    } else if v == 27 {
      assert Charset(v) == 'm';
    } else if v == 28 {
      assert Charset(v) == 'u';
    } else if v == 29 {
      assert Charset(v) == 'a';
    } else if v == 30 {
      assert Charset(v) == '7';
    } else if v == 31 {
      assert Charset(v) == 'l';
    }
  }

  lemma PositionPart0(c: char)
    requires c in "qpzry9x8"
    ensures Position(c).Some? && Charset(Position(c).value) == c
  {
    if c == 'q' {
      assert Position(c) == Some(0);
    } else if c == 'p' {
      assert Position(c) == Some(1);
    } else if c == 'z' {
      assert Position(c) == Some(2);
    } else if c == 'r' {
      assert Position(c) == Some(3);
    } else if c == 'y' {
      assert Position(c) == Some(4);
    } else if c == '9' {
      assert Position(c) == Some(5);
    } else if c == 'x' {
      assert Position(c) == Some(6);
    } else if c == '8' {
      assert Position(c) == Some(7);
    }
  }

  lemma PositionPart1(c: char)
    requires c in "gf2tvdw0"
    ensures Position(c).Some? && Charset(Position(c).value) == c
  {
    if c == 'g' {
      assert Position(c) == Some(8);
    } else if c == 'f' {
      assert Position(c) == Some(9);
    } else if c == '2' {
      assert Position(c) == Some(10);
    } else if c == 't' {
      assert Position(c) == Some(11);
    } else if c == 'v' {
      assert Position(c) == Some(12);
    } else if c == 'd' {
      assert Position(c) == Some(13);
    } else if c == 'w' {
      assert Position(c) == Some(14);
    } else if c == '0' {
      assert Position(c) == Some(15);
    }
  }

  lemma PositionPart2(c: char)
    requires c in "s3jn54kh"
    ensures Position(c).Some? && Charset(Position(c).value) == c
  {
    if c == 's' {
      assert Position(c) == Some(16);
    } else if c == '3' {
      assert Position(c) == Some(17);
    } else if c == 'j' {
      assert Position(c) == Some(18);
    } else if c == 'n' {
      assert Position(c) == Some(19);
    } else if c == '5' {
      assert Position(c) == Some(20);
    } else if c == '4' {
      assert Position(c) == Some(21);
    } else if c == 'k' {
      assert Position(c) == Some(22);
    } else if c == 'h' {
      assert Position(c) == Some(23);
    }
  }

  lemma PositionPart3(c: char)
    requires c in "ce6mua7l"
    ensures Position(c).Some? && Charset(Position(c).value) == c
  {
    if c == 'c' {
      assert Position(c) == Some(24);
    } else if c == 'e' {
      assert Position(c) == Some(25);
    } else if c == '6' {
      assert Position(c) == Some(26);
    } else if c == 'm' {
      assert Position(c) == Some(27);
    } else if c == 'u' {
      assert Position(c) == Some(28);
    } else if c == 'a' {
      assert Position(c) == Some(29);
    } else if c == '7' {
      assert Position(c) == Some(30);
    } else if c == 'l' {
      assert Position(c) == Some(31);
    }
  }

  lemma NoPosition(c: char)
    requires Position(c).Some?
    ensures c in "qpzry9x8" || c in "gf2tvdw0" || c in "s3jn54kh" || c in "ce6mua7l"
  {
    assert "qpzry9x8" == ['q', 'p', 'z', 'r', 'y', '9', 'x', '8'] &&
      "gf2tvdw0" == ['g', 'f', '2', 't', 'v', 'd', 'w', '0'];
    assert "s3jn54kh" == ['s', '3', 'j', 'n', '5', '4', 'k', 'h'] &&
      "ce6mua7l" == ['c', 'e', '6', 'm', 'u', 'a', '7', 'l'];
  }

  /** The decoding table inverts the encoding table, whose characters are printable, not upper case and not the
      separator. */
  lemma CharsetInverts(v: Symbol)
    ensures CharsetRev(Charset(v)) == Some(v) && Plain(Charset(v))
  {
    if v < 8 {
      CharsetPart0(v);
    } else if v < 16 {
      CharsetPart1(v);
    } else if v < 24 {
      CharsetPart2(v);
    } else {
      CharsetPart3(v);
    }
    hide Charset, Position;
  }

  /** Only a character of the set, in either case, is decoded, and encoding it again gives its lower case. */
  lemma CharsetRevInverts(c: char)
    requires CharsetRev(c).Some?
    ensures Charset(CharsetRev(c).value) == LowerCase(c)
  {
    hide Charset, Position;
    var d := LowerCase(c);
    NoPosition(d);
    if d in "qpzry9x8" {
      PositionPart0(d);
    } else if d in "gf2tvdw0" {
      PositionPart1(d);
    } else if d in "s3jn54kh" {
      PositionPart2(d);
    } else {
      PositionPart3(d);
    }
  }
}
