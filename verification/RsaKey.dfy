/** Conversion of a 1024-bit key between 256 hexadecimal digits and 32 little-endian words. */
module RsaKey {

  const WORD: nat := 0x1_0000_0000

  const DIGITS: seq<char> := ['0', '1', '2', '3', '4', '5', '6', '7', '8', '9', 'a', 'b', 'c', 'd', 'e', 'f']

  /** RSA_Hex2Dec: the value of a lower-case digit, -1 for any other character. */
  function Hex2Dec(c: char): (d: int)
    ensures -1 <= d < 16
    ensures d >= 0 ==> DIGITS[d] == c
  {
    if '0' <= c <= '9' then c as int - '0' as int
    else if 'a' <= c <= 'f' then c as int - 'a' as int + 10
    else -1
  }

  predicate IsHex(s: seq<char>) {
    forall i :: 0 <= i < |s| ==> Hex2Dec(s[i]) >= 0
  }

  function Pow(b: int, n: nat): int {
    if n == 0 then 1 else b * Pow(b, n - 1)
  }

  /** The number a string of digits denotes, most significant digit first. */
  function Value(s: seq<char>): int {
    if s == [] then 0 else 16 * Value(s[..|s| - 1]) + Hex2Dec(s[|s| - 1])
  }

  /** The number a sequence of words denotes, least significant word first. */
  function Number(a: seq<nat>): nat {
    if a == [] then 0 else a[0] + WORD * Number(a[1..])
  }

  /** `n` digits of a number, as a printf of fixed width writes them. */
  function Print(w: nat, n: nat): (s: seq<char>)
    ensures |s| == n
  {
    if n == 0 then [] else Print(w / 16, n - 1) + [DIGITS[w % 16]]
  }

  lemma DigitsAreHex(d: nat)
    requires d < 16
    ensures Hex2Dec(DIGITS[d]) == d
  {
  }

  /** RSA_Power */
  method Power(a: int, n: nat) returns (result: int)
    ensures result == Pow(a, n)
  {
    result := 1;
    for i := 0 to n
      invariant result == Pow(a, i)
    {
      result := result * a;
    }
  }

  lemma Regroup(v: int, p: int, w: int, d: int)
    ensures 16 * (v * p + w) + d == v * (16 * p) + (16 * w + d)
  {
  }

  lemma {:induction false} ValueOfBoth(s: seq<char>, t: seq<char>)
    ensures Value(s + t) == Value(s) * Pow(16, |t|) + Value(t)
    decreases |t|
  {
    if t == [] {
      assert s + t == s;
    } else {
      var t', d := t[..|t| - 1], t[|t| - 1];
      assert (s + t)[..|s + t| - 1] == s + t';
      ValueOfBoth(s, t');
      Regroup(Value(s), Pow(16, |t'|), Value(t'), Hex2Dec(d));
    }
  }

  lemma ValueOfOne(c: char)
    ensures Value([c]) == Hex2Dec(c)
  {
    assert [c][..0] == [];
  }

  lemma ValuePrepends(c: char, t: seq<char>)
    ensures Value([c] + t) == Hex2Dec(c) * Pow(16, |t|) + Value(t)
  {
    ValueOfBoth([c], t);
    ValueOfOne(c);
  }

  lemma {:induction false} ValueBound(s: seq<char>)
    requires IsHex(s)
    ensures 0 <= Value(s) < Pow(16, |s|)
  {
    if s != [] {
      ValueBound(s[..|s| - 1]);
    }
  }

  lemma WordIs16To8()
    ensures Pow(16, 8) == WORD
  {
    assert Pow(16, 4) == 0x1_0000;
    assert Pow(16, 6) == 0x100_0000;
  }

  /** The eight digits of word `k`, counted from the end. */
  function Chunk(key: seq<char>, k: nat): seq<char>
    requires 8 * k + 8 <= |key|
  {
    key[|key| - 8 * k - 8..|key| - 8 * k]
  }

  /** The words of `a` are those of the end of the key. */
  ghost predicate EndsAs(a: seq<nat>, key: seq<char>) {
    8 * |a| <= |key| && forall k: nat :: k < |a| ==> a[k] == Value(Chunk(key, k)) % WORD
  }

  lemma OneMoreWord(a: seq<nat>, key: seq<char>, w: nat)
    requires EndsAs(a, key) && 8 * |a| + 8 <= |key| && w == Value(Chunk(key, |a|)) % WORD
    ensures EndsAs(a + [w], key)
  {
  }

  /** What Convert leaves in the words. */
  ghost predicate Converted(a: seq<nat>, key: seq<char>) {
    |key| == 8 * |a| && EndsAs(a, key)
  }

  /** One turn of the inner loop: the digit in front of those already summed. */
  method AddDigit(temp: nat, c: char, j: nat, ghost t: seq<char>) returns (sum: nat)
    requires j == |t| && temp == Value(t) % WORD
    ensures sum == Value([c] + t) % WORD
  {
    var p := Power(16, j);
    ValuePrepends(c, t);
    AddMod(Value(t), Hex2Dec(c) * p);
    sum := (temp + Hex2Dec(c) * p) % WORD;
  }

  /** RSA_Convert, with the 32-bit wrap-around of its unsigned sums. */
  method Convert(a: array<nat>, key: seq<char>)
    requires a.Length == 32 && |key| == 256
    modifies a
    ensures Converted(a[..], key)
  {
    var i, k := 255, 0;
    while i >= 0
      invariant 0 <= k <= 32 && i == 255 - 8 * k
      invariant EndsAs(a[..k], key)
    {
      var temp: nat := 0;
      ghost var t: seq<char> := [];
      for j := 0 to 8
        invariant i == 255 - 8 * k - j && |t| == j && t == key[i + 1..256 - 8 * k]
        invariant temp == Value(t) % WORD && EndsAs(a[..k], key)
      {
        temp := AddDigit(temp, key[i], j, t);
        t := [key[i]] + t;
        i := i - 1;
      }
      assert t == Chunk(key, k) by {
        assert i + 1 == |key| - 8 * k - 8 && 256 - 8 * k == |key| - 8 * k;
      }
      OneMoreWord(a[..k], key, temp);
      a[k] := temp;
      assert a[..k + 1] == a[..k] + [temp];
      k := k + 1;
    }
    assert a[..32] == a[..];
  }

  lemma AddMod(x: int, y: int)
    ensures (x % WORD + y) % WORD == (x + y) % WORD
  {
  }

  // ------------------------------------------------------------------ round trip

  /** RSA_Show_Result: the words from the most significant down, eight digits each. */
  function Show(a: seq<nat>): (s: seq<char>)
    ensures |s| == 8 * |a|
  {
    if a == [] then [] else Show(a[1..]) + Print(a[0], 8)
  }

  lemma ShowNext(a: seq<nat>, i: nat)
    requires i < |a|
    ensures Show(a[i..]) == Show(a[i + 1..]) + Print(a[i], 8)
  {
    assert a[i..][1..] == a[i + 1..];
  }

  /** The loop of RSA_Show_Result over the words. */
  method ShowResult(a: array<nat>) returns (s: seq<char>)
    ensures s == Show(a[..])
  {
    s := [];
    var i := a.Length - 1;
    while i >= 0
      invariant -1 <= i < a.Length && s == Show(a[..][i + 1..])
    {
      ShowNext(a[..], i);
      s := s + Print(a[i], 8);
      i := i - 1;
    }
  }

  /** A key that is converted and printed comes back exactly if all its characters are lower-case
    * digits, and then the words hold the number it denotes.
    */
  method ConvertAndShow(a: array<nat>, key: seq<char>) returns (s: seq<char>)
    requires a.Length == 32 && |key| == 256
    modifies a
    ensures s == key <==> IsHex(key)
    ensures IsHex(key) ==> Number(a[..]) == Value(key)
  {
    Convert(a, key);
    s := ShowResult(a);
    RoundTripIff(a[..], key);
    if IsHex(key) {
      NumberIsValue(a[..], key);
    }
  }

  lemma {:induction false} PrintOfValue(s: seq<char>)
    requires IsHex(s)
    ensures Value(s) >= 0 && Print(Value(s), |s|) == s
  {
    ValueBound(s);
    if s != [] {
      var front, d := s[..|s| - 1], Hex2Dec(s[|s| - 1]);
      PrintOfValue(front);
      assert Value(s) / 16 == Value(front) && Value(s) % 16 == d;
      assert s == front + [DIGITS[d]];
    }
  }

  lemma {:induction false} PrintIsHex(w: nat, n: nat)
    ensures IsHex(Print(w, n))
  {
    if n > 0 {
      PrintIsHex(w / 16, n - 1);
      DigitsAreHex(w % 16);
    }
  }

  /** The first word of the rest of the key. */
  lemma ConvertedRest(a: seq<nat>, key: seq<char>)
    requires a != [] && Converted(a, key)
    ensures Converted(a[1..], key[..|key| - 8])
    ensures key == key[..|key| - 8] + Chunk(key, 0)
  {
    var front := key[..|key| - 8];
    forall k: nat | k < |a| - 1
      ensures Chunk(front, k) == Chunk(key, k + 1)
    {
    }
  }

  /** The last eight digits, if they are digits, are the first word with nothing lost. */
  lemma FirstWord(a: seq<nat>, key: seq<char>)
    requires a != [] && Converted(a, key) && IsHex(key)
    ensures var last := Chunk(key, 0); |last| == 8 && IsHex(last) && a[0] == Value(last) && Value(last) < WORD
  {
    var last := Chunk(key, 0);
    ValueBound(last);
    WordIs16To8();
    assert a[0] == Value(last) % WORD;
  }

  /** A key of lower-case digits is converted to the number it denotes. */
  lemma {:induction false} NumberIsValue(a: seq<nat>, key: seq<char>)
    requires Converted(a, key) && IsHex(key)
    ensures Number(a) == Value(key)
    decreases |a|
  {
    if a == [] {
      assert key == [];
    } else {
      FirstWord(a, key);
      ConvertedRest(a, key);
      NumberIsValue(a[1..], key[..|key| - 8]);
      NumberStep(key[..|key| - 8], Chunk(key, 0));
    }
  }

  lemma NumberStep(front: seq<char>, last: seq<char>)
    requires |last| == 8
    ensures Value(front + last) == Value(front) * WORD + Value(last)
  {
    ValueOfBoth(front, last);
    WordIs16To8();
  }

  lemma {:induction false} ShowOfConverted(a: seq<nat>, key: seq<char>)
    requires Converted(a, key) && IsHex(key)
    ensures Show(a) == key
    decreases |a|
  {
    if a == [] {
      assert key == [];
    } else {
      FirstWord(a, key);
      ConvertedRest(a, key);
      ShowOfConverted(a[1..], key[..|key| - 8]);
      PrintOfValue(Chunk(key, 0));
    }
  }

  lemma {:induction false} ShowIsHex(a: seq<nat>)
    ensures IsHex(Show(a))
    decreases |a|
  {
    if a != [] {
      ShowIsHex(a[1..]);
      PrintIsHex(a[0], 8);
    }
  }

  /** Printing gives the key back exactly if every character of it is a lower-case digit: an
    * upper-case digit or any other character counts as -1 and is lost.
    */
  lemma RoundTripIff(a: seq<nat>, key: seq<char>)
    requires Converted(a, key)
    ensures Show(a) == key <==> IsHex(key)
  {
    ShowIsHex(a);
    if IsHex(key) {
      ShowOfConverted(a, key);
    }
  }
}
