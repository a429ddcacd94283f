/** String helpers the handlers rely on: `Array.prototype.join(", ")`, its
    inverse, and the decimal form of integers that SQLite prints in its
    messages and reads back from a path parameter compared with `id`. */
module Text {

  import opened Json

  const Sep: string := ", "

  /** `ks.join(", ")`. */
  function Join(ks: seq<string>): string
  {
    if ks == [] then ""
    else if |ks| == 1 then ks[0]
    else ks[0] + Sep + Join(ks[1..])
  }

  /** True when `s` has the two characters `", "` in a row somewhere. */
  predicate HasSep(s: string)
  {
    exists i :: 0 <= i < |s| - 1 && s[i] == ',' && s[i + 1] == ' '
  }

  /** Cuts `s` at every `", "`, left to right. */
  function Split(s: string): (r: seq<string>)
    ensures |r| >= 1
    decreases |s|
  {
    if |s| < 2 then [s]
    else if s[0] == ',' && s[1] == ' ' then [""] + Split(s[2..])
    else
      var rest := Split(s[1..]);
      [[s[0]] + rest[0]] + rest[1..]
  }

  lemma NoSepInTail(k: string)
    requires |k| >= 1 && !HasSep(k)
    ensures !HasSep(k[1..])
  {
    forall i | 0 <= i < |k[1..]| - 1 ensures !(k[1..][i] == ',' && k[1..][i + 1] == ' ') {
      assert k[1..][i] == k[i + 1] && k[1..][i + 1] == k[i + 2];
    }
  }

  lemma {:induction false} SplitPlain(k: string)
    requires !HasSep(k)
    ensures Split(k) == [k]
    decreases |k|
  {
    if |k| >= 2 {
      assert !(k[0] == ',' && k[1] == ' ');
      NoSepInTail(k);
      SplitPlain(k[1..]);
      assert [k[0]] + k[1..] == k;
    }
  }

  lemma {:induction false} SplitAtSep(k: string, rest: string)
    requires !HasSep(k)
    ensures Split(k + Sep + rest) == [k] + Split(rest)
    decreases |k|
  {
    var s := k + Sep + rest;
    if k == [] {
      assert s == Sep + rest;
      assert s[2..] == rest;
    } else {
      assert s[0] == k[0];
      assert !(s[0] == ',' && s[1] == ' ') by {
        if |k| >= 2 {
          assert s[1] == k[1];
          assert !(k[0] == ',' && k[1] == ' ');
        } else {
          assert s[1] == ',';
        }
      }
      NoSepInTail(k);
      assert s[1..] == k[1..] + Sep + rest;
      SplitAtSep(k[1..], rest);
      assert [k[0]] + k[1..] == k;
    }
  }

  /** Joining with `", "` and splitting again gives back the keys, as long as
      there is at least one key and none contains the separator. */
  lemma {:induction false} SplitJoin(ks: seq<string>)
    requires |ks| >= 1
    requires forall i :: 0 <= i < |ks| ==> !HasSep(ks[i])
    ensures Split(Join(ks)) == ks
  {
    if |ks| == 1 {
      SplitPlain(ks[0]);
    } else {
      SplitJoin(ks[1..]);
      SplitAtSep(ks[0], Join(ks[1..]));
      assert [ks[0]] + ks[1..] == ks;
    }
  }

  function DigitChar(d: nat): char
    requires d < 10
  {
    ['0', '1', '2', '3', '4', '5', '6', '7', '8', '9'][d]
  }

  predicate IsDigit(c: char)
  {
    '0' <= c <= '9'
  }

  /** The decimal form of `n`, with no leading zero. */
  function NatToString(n: nat): (s: string)
    ensures |s| >= 1
    ensures forall i :: 0 <= i < |s| ==> IsDigit(s[i])
    ensures n > 0 ==> s[0] != '0'
  {
    if n < 10 then [DigitChar(n)]
    else NatToString(n / 10) + [DigitChar(n % 10)]
  }

  /** The value of a string of decimal digits (leading zeros allowed). */
  function DigitsValue(s: string): nat
    requires forall i :: 0 <= i < |s| ==> IsDigit(s[i])
  {
    if s == [] then 0
    else
      assert IsDigit(s[|s| - 1]);
      DigitsValue(s[..|s| - 1]) * 10 + (s[|s| - 1] as int - '0' as int)
  }

  /** A path parameter compared with the integer `id` column: a string of
      decimal digits names that integer, anything else matches no row. */
  function ParseId(s: string): (r: Option<int>)
    ensures r.Some? <==> s != [] && forall i :: 0 <= i < |s| ==> IsDigit(s[i])
    ensures r.Some? ==> r.value >= 0
  {
    if s != [] && forall i :: 0 <= i < |s| ==> IsDigit(s[i]) then Some(DigitsValue(s)) else None
  }

  lemma {:induction false} DigitsOfNat(n: nat)
    ensures DigitsValue(NatToString(n)) == n
  {
    var s := NatToString(n);
    if n < 10 {
      assert s[..0] == [];
      assert s[0] as int - '0' as int == n;
    } else {
      DigitsOfNat(n / 10);
      assert s[..|s| - 1] == NatToString(n / 10);
      assert s[|s| - 1] as int - '0' as int == n % 10;
    }
  }

  /** Printing a non-negative id and reading it back as a path parameter
      gives the same id. */
  lemma ParseNatToString(n: nat)
    ensures ParseId(NatToString(n)) == Some(n)
  {
    DigitsOfNat(n);
  }
}
