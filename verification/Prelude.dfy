/** Small value types shared by the whole model. */
module Prelude {

  /** A value that may be absent: the source's `undefined` and `null`. */
  datatype Option<+T> = None | Some(value: T)

  function Min(a: int, b: int): int {
    if a <= b then a else b
  }

  function Max(a: int, b: int): int {
    if a <= b then b else a
  }

  // ----- keys made of two parts

  function JoinedKey(name: string, rest: string): string {
    name + ":" + rest
  }

  lemma NamesOfDifferentLength(a: string, b: string, a': string, b': string)
    requires |a| < |a'| && ':' !in a'
    ensures JoinedKey(a, b) != JoinedKey(a', b')
  {
    assert JoinedKey(a, b)[|a|] == ':' && JoinedKey(a', b')[|a|] == a'[|a|];
  }

  /** Two keys with a part in common, or with names free of colons, are equal only if both parts are. */
  lemma JoinedKeyTellsApart(a: string, b: string, a': string, b': string)
    requires a == a' || b == b' || (':' !in a && ':' !in a')
    ensures JoinedKey(a, b) == JoinedKey(a', b') <==> a == a' && b == b'
  {
    var key, key' := JoinedKey(a, b), JoinedKey(a', b');
    if |a| < |a'| && b != b' {
      NamesOfDifferentLength(a, b, a', b');
    } else if |a'| < |a| && b != b' {
      NamesOfDifferentLength(a', b', a, b);
    } else if |a| == |a'| {
      assert a == key[..|a|] && a' == key'[..|a|];
      assert b == key[|a| + 1..] && b' == key'[|a| + 1..];
    } else {
      assert |key| != |key'|;
    }
  }

  // ----- decimal numerals

  function Digit(d: nat): char
    requires d < 10
  {
    ('0' as int + d) as char
  }

  predicate IsDigit(c: char) {
    '0' <= c <= '9'
  }

  function DigitValue(c: char): nat
    requires IsDigit(c)
  {
    c as int - '0' as int
  }

  function Decimal(n: nat): (ds: string)
    ensures ds != "" && forall k :: 0 <= k < |ds| ==> IsDigit(ds[k])
  {
    if n < 10 then [Digit(n)] else Decimal(n / 10) + [Digit(n % 10)]
  }

  function ParseInt(ds: string): nat
    requires forall k :: 0 <= k < |ds| ==> IsDigit(ds[k])
  {
    if ds == "" then 0 else 10 * ParseInt(ds[..|ds| - 1]) + DigitValue(ds[|ds| - 1])
  }

  lemma {:induction false} ParseDecimal(n: nat)
    ensures ParseInt(Decimal(n)) == n
  {
    if n >= 10 {
      ParseDecimal(n / 10);
      assert Decimal(n)[..|Decimal(n)| - 1] == Decimal(n / 10);
    }
  }
}
