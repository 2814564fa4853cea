/** Text on bytes: decimal printing, Python's `int()` on ASCII, and `blk.N.` tensor names. */
module Names {
  import opened Wrappers
  import opened Bytes

  const DOT: byte := 46
  const UNDERSCORE: byte := 95

  predicate IsDigit(c: byte) { 48 <= c < 58 }

  predicate AllDigits(s: seq<byte>) { forall i :: 0 <= i < |s| ==> IsDigit(s[i]) }

  /** `str(n)`. */
  function Dec(n: nat): (r: seq<byte>)
    ensures r != [] && AllDigits(r)
  {
    if n < 10 then [48 + n] else Dec(n / 10) + [48 + n % 10]
  }

  /** Digits with single underscores between them, as `int()` takes them. */
  function Digits(s: seq<byte>): Option<nat>
  {
    if s == [] || !IsDigit(s[|s| - 1]) then None
    else
      var d := s[|s| - 1] - 48;
      if |s| == 1 then Some(d)
      else
        match Digits(if s[|s| - 2] == UNDERSCORE then s[..|s| - 2] else s[..|s| - 1])
        case None => None
        case Some(v) => Some(10 * v + d)
  }

  /** ASCII characters that `str.strip` and `int` drop. */
  predicate IsSpace(c: byte) { c == 32 || 9 <= c <= 13 || 28 <= c <= 31 }

  function Strip(s: seq<byte>): seq<byte>
  {
    if s == [] then []
    else if IsSpace(s[0]) then Strip(s[1..])
    else if IsSpace(s[|s| - 1]) then Strip(s[..|s| - 1])
    else s
  }

  /** `int(s)`, `None` standing for its `ValueError`. */
  function PyInt(s: seq<byte>): Option<int>
  {
    SignedDigits(Strip(s))
  }

  /** Digits with or without a sign in front. */
  function SignedDigits(t: seq<byte>): Option<int>
  {
    if t == [] then None
    else if t[0] == 43 || t[0] == 45 then
      match Digits(t[1..])
      case None => None
      case Some(v) => Some(if t[0] == 45 then 0 - v else v)
    else
      match Digits(t)
      case None => None
      case Some(v) => Some(v as int)
  }

  lemma {:induction false} DigitsOfDec(n: nat)
    ensures Digits(Dec(n)) == Some(n)
  {
    if n >= 10 {
      DigitsOfDec(n / 10);
      var s := Dec(n);
      assert s[..|s| - 1] == Dec(n / 10) && IsDigit(s[|s| - 2]);
    }
  }

  /** The number a run of digits writes, from the front. */
  function Decimal(d: seq<byte>): nat
    requires AllDigits(d)
  {
    if d == [] then 0 else (d[0] - 48) * PowerOfTen(|d| - 1) + Decimal(d[1..])
  }

  function PowerOfTen(n: nat): nat
  {
    if n == 0 then 1 else 10 * PowerOfTen(n - 1)
  }

  lemma {:induction false} DecimalLast(d: seq<byte>)
    requires AllDigits(d) && d != []
    ensures Decimal(d) == 10 * Decimal(d[..|d| - 1]) + (d[|d| - 1] - 48)
  {
    if |d| > 1 {
      DecimalLast(d[1..]);
      assert d[1..][..|d| - 2] == d[..|d| - 1][1..];
      Tenfold(d[0] - 48, PowerOfTen(|d| - 2));
    }
  }

  lemma Tenfold(x: nat, y: nat)
    ensures x * (10 * y) == 10 * (x * y)
  {
  }

  lemma {:induction false} DigitsAreDecimal(d: seq<byte>)
    requires AllDigits(d) && d != []
    ensures Digits(d) == Some(Decimal(d))
  {
    DecimalLast(d);
    if |d| > 1 { DigitsAreDecimal(d[..|d| - 1]); }
  }

  lemma NoDigits(d: seq<byte>)
    ensures d == [] ==> Digits(d).None?
  {
  }

  /** `int(str(n)) == n`. */
  lemma {:induction false} IntOfDec(n: nat)
    ensures PyInt(Dec(n)) == Some(n)
  {
    DigitsOfDec(n);
    assert Strip(Dec(n)) == Dec(n);
  }

  // ----- what `int()` accepts

  predicate DigitOrJoint(s: seq<byte>, i: nat)
    requires i < |s|
  {
    IsDigit(s[i]) || (s[i] == 95 && i + 1 < |s| && IsDigit(s[i + 1]))
  }

  /** Digits, single underscores allowed between two of them. */
  predicate Grouped(s: seq<byte>)
  {
    && s != [] && IsDigit(s[0])
    && forall i :: 0 <= i < |s| ==> DigitOrJoint(s, i)
  }

  function WithoutUnderscores(s: seq<byte>): seq<byte>
  {
    if s == [] then [] else (if s[0] == 95 then [] else [s[0]]) + WithoutUnderscores(s[1..])
  }

  lemma {:induction false} WithoutIsDigits(s: seq<byte>)
    requires forall i :: 0 <= i < |s| ==> IsDigit(s[i]) || s[i] == 95
    ensures AllDigits(WithoutUnderscores(s))
  {
    if s != [] { WithoutIsDigits(s[1..]); }
  }

  lemma {:induction false} WithoutLast(s: seq<byte>)
    requires s != []
    ensures WithoutUnderscores(s)
         == WithoutUnderscores(s[..|s| - 1]) + if s[|s| - 1] == 95 then [] else [s[|s| - 1]]
  {
    if |s| > 1 {
      WithoutLast(s[1..]);
      assert s[1..][..|s| - 2] == s[..|s| - 1][1..];
    }
  }

  /** What is in front of the last digit and an underscore before it. */
  lemma GroupedFront(s: seq<byte>)
    requires |s| > 1 && IsDigit(s[|s| - 1])
    ensures Grouped(s) <==> Grouped(if s[|s| - 2] == 95 then s[..|s| - 2] else s[..|s| - 1])
  {
    var front := if s[|s| - 2] == 95 then s[..|s| - 2] else s[..|s| - 1];
    if Grouped(s) {
      assert DigitOrJoint(s, |s| - 2);
      if |s| > 2 { assert DigitOrJoint(s, |s| - 3); }
      forall i | 0 <= i < |front| ensures DigitOrJoint(front, i) {
        assert front[i] == s[i] && DigitOrJoint(s, i);
      }
    }
    if Grouped(front) {
      forall i | 0 <= i < |s| ensures DigitOrJoint(s, i) {
        if i < |front| { assert front[i] == s[i] && DigitOrJoint(front, i); }
      }
    }
  }

  lemma GroupedEnds(s: seq<byte>)
    requires Grouped(s)
    ensures IsDigit(s[|s| - 1]) && forall i :: 0 <= i < |s| ==> IsDigit(s[i]) || s[i] == 95
  {
    assert DigitOrJoint(s, |s| - 1);
    forall i | 0 <= i < |s| ensures IsDigit(s[i]) || s[i] == 95 { assert DigitOrJoint(s, i); }
  }

  /** The digits are read exactly when they are grouped, and mean what they write. */
  lemma {:induction false} DigitsRead(s: seq<byte>)
    ensures Grouped(s) <==> Digits(s).Some?
    ensures Grouped(s) ==> AllDigits(WithoutUnderscores(s)) && Digits(s) == Some(Decimal(WithoutUnderscores(s)))
    decreases |s|
  {
    if Grouped(s) {
      GroupedEnds(s);
      WithoutIsDigits(s);
    }
    if s != [] && IsDigit(s[|s| - 1]) {
      if |s| == 1 {
        OneDigit(s);
      } else {
        DigitsRead(if s[|s| - 2] == UNDERSCORE then s[..|s| - 2] else s[..|s| - 1]);
        GroupedFront(s);
        if Grouped(s) { DigitsStep(s); }
      }
    }
  }

  lemma OneDigit(s: seq<byte>)
    requires |s| == 1 && IsDigit(s[0])
    ensures Grouped(s) && AllDigits(WithoutUnderscores(s)) && Decimal(WithoutUnderscores(s)) == s[0] - 48
  {
    assert WithoutUnderscores(s[1..]) == [];
    assert WithoutUnderscores(s) == s && PowerOfTen(0) == 1;
  }

  /** The last digit of a grouped text. */
  lemma DigitsStep(s: seq<byte>)
    requires |s| > 1 && IsDigit(s[|s| - 1]) && AllDigits(WithoutUnderscores(s))
    ensures var front := if s[|s| - 2] == UNDERSCORE then s[..|s| - 2] else s[..|s| - 1];
            && AllDigits(WithoutUnderscores(front))
            && Decimal(WithoutUnderscores(s)) == 10 * Decimal(WithoutUnderscores(front)) + (s[|s| - 1] - 48)
  {
    hide Decimal, AllDigits;
    var front := if s[|s| - 2] == UNDERSCORE then s[..|s| - 2] else s[..|s| - 1];
    var w := WithoutUnderscores(front);
    WithoutLast(s);
    WithoutLast(s[..|s| - 1]);
    assert s[..|s| - 1][..|s| - 2] == s[..|s| - 2];
    assert w + [] == w;
    assert WithoutUnderscores(s) == w + [s[|s| - 1]];
    FrontDigits(w, s[|s| - 1]);
    DecimalLast(WithoutUnderscores(s));
    assert WithoutUnderscores(s)[..|w|] == w;
  }

  lemma FrontDigits(w: seq<byte>, c: byte)
    requires AllDigits(w + [c])
    ensures AllDigits(w)
  {
    assert forall i :: 0 <= i < |w| ==> (w + [c])[i] == w[i];
  }

  lemma {:induction false} StripSpaces(front: seq<byte>, s: seq<byte>, back: seq<byte>)
    requires s != [] && !IsSpace(s[0]) && !IsSpace(s[|s| - 1])
    requires (forall i :: 0 <= i < |front| ==> IsSpace(front[i])) && forall i :: 0 <= i < |back| ==> IsSpace(back[i])
    ensures Strip(front + s + back) == s
    decreases |front| + |back|
  {
    var all := front + s + back;
    if front != [] {
      StripSpaces(front[1..], s, back);
      assert all[1..] == front[1..] + s + back;
    } else if back != [] {
      StripSpaces(front, s, back[..|back| - 1]);
      assert all[0] == s[0] && all[|all| - 1] == back[|back| - 1];
      assert all[..|all| - 1] == front + s + back[..|back| - 1];
    } else {
      assert all == s;
    }
  }

  lemma SignedReads(sign: seq<byte>, s: seq<byte>)
    requires sign == [] || sign == [43] || sign == [45]
    requires s != [] && s[0] != 43 && s[0] != 45
    ensures Grouped(s) ==> AllDigits(WithoutUnderscores(s))
    ensures SignedDigits(sign + s)
         == if !Grouped(s) then None
            else if sign == [45] then Some(0 - Decimal(WithoutUnderscores(s)))
            else Some(Decimal(WithoutUnderscores(s)))
  {
    DigitsRead(s);
    hide Digits, Grouped, WithoutUnderscores, Decimal, AllDigits;
    if sign == [] {
      assert sign + s == s;
    } else {
      assert (sign + s)[1..] == s && (sign + s)[0] == sign[0];
    }
  }

  /** Between white space, with a plus or a minus or neither in front: the number the digits write,
      when they are grouped, and nothing otherwise. */
  lemma IntReads(front: seq<byte>, sign: seq<byte>, s: seq<byte>, back: seq<byte>)
    requires (forall i :: 0 <= i < |front| ==> IsSpace(front[i])) && forall i :: 0 <= i < |back| ==> IsSpace(back[i])
    requires sign == [] || sign == [43] || sign == [45]
    requires s != [] && !IsSpace(s[0]) && s[0] != 43 && s[0] != 45 && !IsSpace(s[|s| - 1])
    ensures Grouped(s) ==> AllDigits(WithoutUnderscores(s))
    ensures PyInt(front + (sign + s) + back)
         == if !Grouped(s) then None
            else if sign == [45] then Some(0 - Decimal(WithoutUnderscores(s)))
            else Some(Decimal(WithoutUnderscores(s)))
  {
    hide Strip, SignedDigits, Grouped, WithoutUnderscores, Decimal, AllDigits;
    SignedReads(sign, s);
    StripSpaces(front, sign + s, back);
  }

  /** A run of digits, leading zeros and all. */
  lemma IntOfDigits(d: seq<byte>)
    requires AllDigits(d) && d != []
    ensures PyInt(d) == Some(Decimal(d))
  {
    DigitsAreDecimal(d);
    StripSpaces([], d, []);
    assert [] + d + [] == d;
    hide Digits, Strip, Decimal;
  }

  /** `str(n)`: the digits of `n` without a zero in front. */
  lemma {:induction false} DecReads(n: nat)
    ensures Decimal(Dec(n)) == n && (n >= 10 ==> Dec(n)[0] != 48)
  {
    DecimalLast(Dec(n));
    if n >= 10 {
      DecReads(n / 10);
      assert Dec(n)[..|Dec(n)| - 1] == Dec(n / 10);
    }
  }

  // ----- tensor names

  function Blk(): seq<byte> { Ascii("blk.") }

  /** The first dot at or after `i`, or the end. */
  function DotFrom(s: seq<byte>, i: nat): (r: nat)
    requires i <= |s|
    ensures i <= r <= |s| && (r < |s| ==> s[r] == DOT)
    ensures forall j :: i <= j < r ==> s[j] != DOT
    decreases |s| - i
  {
    if i == |s| || s[i] == DOT then i else DotFrom(s, i + 1)
  }

  /** `name.split(".")[1]` of a name that starts with `blk.`. */
  function LayerText(name: seq<byte>): seq<byte>
    requires Blk() <= name
  {
    name[4..DotFrom(name, 4)]
  }

  /** `name.split(".", 2)[2]`, `None` standing for its `IndexError`. */
  function RestOf(name: seq<byte>): Option<seq<byte>>
    requires Blk() <= name
  {
    var d := DotFrom(name, 4);
    if d < |name| then Some(name[d + 1..]) else None
  }

  function BlkName(layer: nat, rest: seq<byte>): (r: seq<byte>)
    ensures Blk() <= r
  {
    Blk() + (Dec(layer) + ([DOT] + rest))
  }

  /** The parts of a name `blk.<digits>.<rest>`. */
  lemma NumberedParts(d: seq<byte>, rest: seq<byte>)
    requires AllDigits(d)
    ensures var name := Blk() + (d + ([DOT] + rest));
            && DotFrom(name, 4) == 4 + |d| && LayerText(name) == d && RestOf(name) == Some(rest)
  {
    var name := Blk() + (d + ([DOT] + rest));
    var n := 4 + |d|;
    assert |Blk()| == 4;
    hide Blk, Ascii, DotFrom;
    forall j | 4 <= j < n ensures name[j] != DOT { assert name[j] == d[j - 4]; }
    assert name[n] == DOT;
    assert name[4..n] == d && name[n + 1..] == rest;
  }

  lemma BlkNameParts(layer: nat, rest: seq<byte>)
    ensures var name := BlkName(layer, rest);
            && LayerText(name) == Dec(layer) && PyInt(LayerText(name)) == Some(layer)
            && RestOf(name) == Some(rest)
  {
    hide Dec, PyInt, Blk, DotFrom, IsDigit, Ascii, LayerText, RestOf;
    IntOfDec(layer);
    NumberedParts(Dec(layer), rest);
  }

  /** Different layers or different rests give different names. */
  lemma BlkNameInjective(l: nat, r: seq<byte>, l': nat, r': seq<byte>)
    ensures BlkName(l, r) == BlkName(l', r') <==> l == l' && r == r'
  {
    BlkNameParts(l, r);
    BlkNameParts(l', r');
  }
}
