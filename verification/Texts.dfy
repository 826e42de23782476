/** Strings as Python cuts them: white space, stripping, and the sentences of a text. */
module Texts {
  /** The characters that strip() removes and split() separates words at. */
  predicate IsSpace(c: char) {
    var n := c as int;
    9 <= n <= 13 || 28 <= n <= 32 || n == 133 || n == 160 || n == 5760 || 8192 <= n <= 8202
    || n == 8232 || n == 8233 || n == 8239 || n == 8287 || n == 12288
  }

  /** Without the white space at both ends. */
  function Strip(s: string): (r: string)
    ensures r != "" ==> !IsSpace(r[0]) && !IsSpace(r[|r| - 1])
    decreases |s|
  {
    if s == "" then ""
    else if IsSpace(s[0]) then Strip(s[1..])
    else if IsSpace(s[|s| - 1]) then Strip(s[..|s| - 1])
    else s
  }

  /** What is stripped off is white space, and what is left stands between. */
  lemma {:induction false} StripIs(s: string) returns (i: nat, j: nat)
    ensures i <= j <= |s| && Strip(s) == s[i..j]
    ensures forall k :: 0 <= k < i || j <= k < |s| ==> IsSpace(s[k])
    decreases |s|
  {
    if s == "" {
      i, j := 0, 0;
    } else if IsSpace(s[0]) {
      i, j := StripIs(s[1..]);
      i, j := i + 1, j + 1;
      forall k | 0 < k < |s| && (k < i || j <= k) ensures IsSpace(s[k]) {
        assert s[k] == s[1..][k - 1];
      }
    } else if IsSpace(s[|s| - 1]) {
      i, j := StripIs(s[..|s| - 1]);
      forall k | 0 <= k < |s| - 1 && (k < i || j <= k) ensures IsSpace(s[k]) {
        assert s[k] == s[..|s| - 1][k];
      }
    } else {
      i, j := 0, |s|;
    }
  }

  predicate IsStop(c: char) {
    c == '.' || c == ';' || c == '\n'
  }

  function Worthy(piece: string): seq<string> {
    if |Strip(piece)| > 8 then [Strip(piece)] else []
  }

  /** The stripped pieces between stops that are longer than eight characters; `piece` is being read. */
  function Sentences(s: string, piece: string): seq<string>
    decreases |s|
  {
    if s == "" then Worthy(piece)
    else if IsStop(s[0]) then Worthy(piece) + Sentences(s[1..], "")
    else Sentences(s[1..], piece + [s[0]])
  }

  predicate NoStop(s: string) {
    forall c :: c in s ==> !IsStop(c)
  }

  /** Every sentence is stripped, has more than eight characters, and holds no stop. */
  lemma {:induction false} SentencesAre(s: string, piece: string)
    requires NoStop(piece)
    ensures forall x :: x in Sentences(s, piece) ==> |x| > 8 && NoStop(x) && !IsSpace(x[0]) && !IsSpace(x[|x| - 1])
    decreases |s|
  {
    var i, j := StripIs(piece);
    if s != "" {
      SentencesAre(s[1..], if IsStop(s[0]) then "" else piece + [s[0]]);
    }
  }

  /** A stop ends a piece; what is long enough when stripped is a sentence. */
  lemma {:induction false} SentencesSplit(a: string, stop: char, b: string, piece: string)
    requires (forall c :: c in a ==> c !in ".;\n") && stop in ".;\n"
    ensures Sentences(a, piece) == if |Strip(piece + a)| > 8 then [Strip(piece + a)] else []
    ensures Sentences(a + [stop] + b, piece) == Sentences(a, piece) + Sentences(b, "")
    decreases |a|
  {
    if a == "" {
      assert piece + a == piece;
      assert a + [stop] + b == [stop] + b && ([stop] + b)[1..] == b;
    } else {
      assert a[0] in a && forall c :: c in a[1..] ==> c in a;
      assert (a + [stop] + b)[1..] == a[1..] + [stop] + b;
      assert piece + [a[0]] + a[1..] == piece + a;
      SentencesSplit(a[1..], stop, b, piece + [a[0]]);
    }
  }

  // ---------------------------------------------------------------- numerals

  predicate AllDigits(text: string) {
    forall c :: c in text ==> '0' <= c <= '9'
  }

  function ToNumber(digits: string): int {
    if digits == "" then 0
    else 10 * ToNumber(digits[..|digits| - 1]) + (digits[|digits| - 1] as int - '0' as int)
  }

  function Digits(n: nat): (d: string)
    ensures d != "" && AllDigits(d)
  {
    var last := [('0' as int + n % 10) as char];
    if n < 10 then last else Digits(n / 10) + last
  }

  lemma {:induction false} DigitsRead(n: nat)
    ensures ToNumber(Digits(n)) == n
  {
    if n >= 10 {
      DigitsRead(n / 10);
      assert Digits(n)[..|Digits(n)| - 1] == Digits(n / 10);
    }
  }
}
