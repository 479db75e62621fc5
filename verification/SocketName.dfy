/**
 * The two name parsers of ProcHandle.cpp: the VE node number taken from the
 * basename of the VEOS socket file (get_ve_node_num) and the VE number taken
 * from the device path ("/dev/veslot%d" in the ProcHandle constructor).
 * A C string is modelled by the sequence of its characters before the NUL.
 */
module SocketName {
  import opened Common

  predicate IsDigit(c: char) { '0' <= c <= '9' }

  function DigitValue(c: char): (d: nat)
    requires IsDigit(c)
    ensures d < 10
  {
    c as int - '0' as int
  }

  function DigitChar(d: nat): (c: char)
    requires d < 10
    ensures IsDigit(c) && DigitValue(c) == d
  {
    ('0' as int + d) as char
  }

  predicate AllDigits(s: string) { forall i :: 0 <= i < |s| ==> IsDigit(s[i]) }

  /** The characters of `s` before its first '.' (all of `s` when it has none). */
  function BeforeDot(s: string): (p: string)
    ensures p <= s && '.' !in p
    ensures |p| == |s| || s[|p|] == '.'
  {
    if s == [] || s[0] == '.' then [] else [s[0]] + BeforeDot(s[1..])
  }

  /** The digits of `s`, in order; every other character is dropped. */
  function Digits(s: string): (d: string)
    ensures AllDigits(d) && |d| <= |s|
  {
    if s == [] then []
    else Digits(s[..|s| - 1]) + (if IsDigit(s[|s| - 1]) then [s[|s| - 1]] else [])
  }

  /** The number a string of decimal digits denotes, most significant first. */
  function DecimalValue(d: string): nat
    requires AllDigits(d)
  {
    if d == [] then 0 else 10 * DecimalValue(d[..|d| - 1]) + DigitValue(d[|d| - 1])
  }

  /** The shortest decimal numeral of `n`; the inverse of DecimalValue. */
  function Decimal(n: nat): (d: string)
    ensures |d| >= 1 && AllDigits(d)
    ensures DecimalValue(d) == n
  {
    if n < 10 then [DigitChar(n)]
    else
      var d := Decimal(n / 10) + [DigitChar(n % 10)];
      assert d[..|d| - 1] == Decimal(n / 10);
      d
  }

  /** What get_ve_node_num returns: the digits before the first '.', read in decimal. */
  function NodeNum(s: string): nat
  {
    DecimalValue(Digits(BeforeDot(s)))
  }

  /** BeforeDot is determined by its postcondition. */
  lemma BeforeDotUnique(s: string, p: string)
    requires p <= s && '.' !in p
    requires |p| == |s| || s[|p|] == '.'
    ensures BeforeDot(s) == p
  {
  }

  /** Get_ve_node_num: scan the socket basename, accumulate digits, stop at the first '.'. */
  method GetVeNodeNum(s: string) returns (n: int)
    ensures n == NodeNum(s)
  {
    n := 0;
    var i := 0;
    while i < |s|
      invariant 0 <= i <= |s|
      invariant '.' !in s[..i]
      invariant n == DecimalValue(Digits(s[..i]))
    {
      assert s[..i + 1][..i] == s[..i];
      ghost var d := Digits(s[..i]);
      if IsDigit(s[i]) {
        assert Digits(s[..i + 1]) == d + [s[i]];
        assert (d + [s[i]])[..|d|] == d;
        n := 10 * n + DigitValue(s[i]);
      } else if s[i] == '.' {
        break;
      } else {
        assert Digits(s[..i + 1]) == d;
      }
      i := i + 1;
    }
    assert s[..i] <= s;
    BeforeDotUnique(s, s[..i]);
  }

  lemma {:induction false} DigitsAppend(a: string, b: string)
    ensures Digits(a + b) == Digits(a) + Digits(b)
    decreases |b|
  {
    if b == [] {
      assert a + b == a;
    } else {
      var b' := b[..|b| - 1];
      assert (a + b)[..|a + b| - 1] == a + b';
      DigitsAppend(a, b');
    }
  }

  lemma {:induction false} DigitsNone(s: string)
    requires forall i :: 0 <= i < |s| ==> !IsDigit(s[i])
    ensures Digits(s) == []
    decreases |s|
  {
    if s != [] {
      DigitsNone(s[..|s| - 1]);
    }
  }

  lemma {:induction false} DigitsOfDigits(s: string)
    requires AllDigits(s)
    ensures Digits(s) == s
    decreases |s|
  {
    if s != [] {
      DigitsOfDigits(s[..|s| - 1]);
    }
  }

  lemma BeforeDotAppend(a: string, b: string)
    requires '.' !in a
    ensures BeforeDot(a + b) == a + BeforeDot(b)
  {
    var p := a + BeforeDot(b);
    assert p <= a + b;
    BeforeDotUnique(a + b, p);
  }

  /** Characters after the first '.' never affect the node number. */
  lemma NodeNumStopsAtDot(s: string, t: string)
    requires '.' !in s
    ensures NodeNum(s + "." + t) == NodeNum(s)
  {
    BeforeDotUnique(s + "." + t, s);
    BeforeDotUnique(s, s);
  }

  /** A character that is neither a digit nor a '.' is skipped. */
  lemma NodeNumSkipsOther(a: string, c: char, b: string)
    requires !IsDigit(c) && c != '.'
    ensures NodeNum(a + [c] + b) == NodeNum(a + b)
  {
    if '.' in a {
      var p := BeforeDot(a);
      BeforeDotUnique(a + [c] + b, p);
      BeforeDotUnique(a + b, p);
    } else {
      var bb := BeforeDot(b);
      assert '.' !in a + [c];
      BeforeDotAppend(a + [c], b);
      BeforeDotAppend(a, b);
      assert a + [c] + b == (a + [c]) + b;
      assert Digits([c]) == [] by { assert [c][..0] == []; }
      DigitsAppend(a, [c]);
      DigitsAppend(a + [c], bb);
      DigitsAppend(a, bb);
      assert Digits(a + [c]) == Digits(a);
    }
  }

  /** A name with no digit at all yields node 0. */
  lemma NodeNumNoDigits(s: string)
    requires forall i :: 0 <= i < |s| ==> !IsDigit(s[i])
    ensures NodeNum(s) == 0
  {
    var p := BeforeDot(s);
    assert forall i :: 0 <= i < |p| ==> p[i] == s[i];
    DigitsNone(p);
  }

  /** A run of digits after a dot-free prefix holds no '.'. */
  lemma NoDotInNumeral(prefix: string, d: string)
    requires forall i :: 0 <= i < |prefix| ==> prefix[i] != '.'
    requires AllDigits(d)
    ensures '.' !in prefix + d
  {
    var s := prefix + d;
    assert forall i :: 0 <= i < |s| ==> s[i] != '.' by {
      forall i | 0 <= i < |s| ensures s[i] != '.' {
        if i < |prefix| { assert s[i] == prefix[i]; } else { assert s[i] == d[i - |prefix|]; }
      }
    }
  }

  /**
   * Round trip: a socket basename built as <letters><decimal n>.<anything>,
   * such as "veos3.sock", gives back n.
   */
  lemma NodeNumOfSocketName(prefix: string, n: nat, suffix: string)
    requires forall i :: 0 <= i < |prefix| ==> !IsDigit(prefix[i]) && prefix[i] != '.'
    ensures NodeNum(prefix + Decimal(n) + "." + suffix) == n
  {
    var d := Decimal(n);
    var s0 := prefix + d;
    NoDotInNumeral(prefix, d);
    NodeNumStopsAtDot(s0, suffix);
    BeforeDotUnique(s0, s0);
    DigitsAppend(prefix, d);
    DigitsNone(prefix);
    DigitsOfDigits(d);
    assert Digits(s0) == d;
  }

  // ----- the VE number: sscanf(vedev, "/dev/veslot%d", &ve_number) -----

  const VeSlotPrefix: string := "/dev/veslot"

  /** The white-space characters that `%d` skips (C isspace). */
  predicate IsSpace(c: char)
  {
    c == ' ' || c == '\t' || c == '\n' || c == '\r' || c == '\U{B}' || c == '\U{C}'
  }

  /** The longest run of digits at the start of `s`. */
  function LeadingDigits(s: string): (d: string)
    ensures d <= s && AllDigits(d)
    ensures |d| == |s| || !IsDigit(s[|d|])
  {
    if s != [] && IsDigit(s[0]) then [s[0]] + LeadingDigits(s[1..]) else []
  }

  /** The text `%d` starts converting from: `s` without its leading white space. */
  function SkipSpace(s: string): (t: string)
    ensures |t| <= |s| && t == s[|s| - |t|..]
    ensures t == [] || !IsSpace(t[0])
  {
    if s != [] && IsSpace(s[0]) then SkipSpace(s[1..]) else s
  }

  /** The value of the digit run at the start of `s`; None when there is none. */
  function ScanDigits(s: string): (r: Option<int>)
  {
    var d := LeadingDigits(s);
    if d == [] then None else Some(DecimalValue(d))
  }

  function Negated(r: Option<int>): Option<int>
  {
    match r
    case Some(v) => Some(-v)
    case None => None
  }

  /** A `%d` conversion: optional white space and sign, then at least one digit. */
  function ScanInt(s: string): (r: Option<int>)
  {
    var t := SkipSpace(s);
    if t != [] && t[0] == '-' then Negated(ScanDigits(t[1..]))
    else if t != [] && t[0] == '+' then ScanDigits(t[1..])
    else ScanDigits(t)
  }

  /** The VE number the constructor derives from the device path; -1 when it does not match. */
  function VeNumber(vedev: string): (v: int)
    ensures VeSlotPrefix <= vedev && ScanInt(vedev[|VeSlotPrefix|..]).Some? ==>
      v == ScanInt(vedev[|VeSlotPrefix|..]).value
    ensures !(VeSlotPrefix <= vedev) || ScanInt(vedev[|VeSlotPrefix|..]).None? ==> v == -1
  {
    if VeSlotPrefix <= vedev then
      match ScanInt(vedev[|VeSlotPrefix|..])
      case Some(v) => v
      case None => -1
    else -1
  }

  lemma {:induction false} LeadingDigitsOfNumeral(d: string, rest: string)
    requires AllDigits(d)
    requires rest == [] || !IsDigit(rest[0])
    ensures LeadingDigits(d + rest) == d
    decreases |d|
  {
    if d != [] {
      assert d + rest == [d[0]] + (d[1..] + rest);
      LeadingDigitsOfNumeral(d[1..], rest);
    } else {
      assert d + rest == rest;
    }
  }

  /** The digit run of a bare numeral is all of it. */
  lemma {:induction false} ScanDigitsNumeral(d: string)
    requires |d| >= 1 && AllDigits(d)
    ensures ScanDigits(d) == Some(DecimalValue(d))
  {
    LeadingDigitsOfNumeral(d, []);
    assert d + [] == d;
  }

  /** A `%d` conversion of a bare numeral yields its value. */
  lemma {:induction false} ScanIntNumeral(d: string)
    requires |d| >= 1 && AllDigits(d)
    ensures ScanInt(d) == Some(DecimalValue(d))
  {
    assert IsDigit(d[0]) && !IsSpace(d[0]) && d[0] != '-' && d[0] != '+';
    assert SkipSpace(d) == d;
    assert ScanInt(d) == ScanDigits(d);
    ScanDigitsNumeral(d);
  }

  /** Round trip: "/dev/veslot<n>" gives back n. */
  lemma VeNumberRoundTrip(n: nat)
    ensures VeNumber(VeSlotPrefix + Decimal(n)) == n
  {
    var d := Decimal(n);
    var s := VeSlotPrefix + d;
    assert VeSlotPrefix <= s;
    assert s[|VeSlotPrefix|..] == d;
    ScanIntNumeral(d);
  }

  /** A `%d` conversion of a '-' followed by a numeral yields the negated value. */
  lemma {:induction false} ScanIntNegative(d: string)
    requires |d| >= 1 && AllDigits(d)
    ensures ScanInt("-" + d) == Some(-(DecimalValue(d) as int))
  {
    var t := "-" + d;
    assert t[0] == '-' && !IsSpace(t[0]);
    assert SkipSpace(t) == t;
    assert t[1..] == d;
    ScanDigitsNumeral(d);
  }

  lemma VeNumberNegative(n: nat)
    ensures VeNumber(VeSlotPrefix + "-" + Decimal(n)) == -(n as int)
  {
    var d := Decimal(n);
    var s := VeSlotPrefix + "-" + d;
    assert s == VeSlotPrefix + ("-" + d);
    assert VeSlotPrefix <= s;
    assert s[|VeSlotPrefix|..] == "-" + d;
    ScanIntNegative(d);
  }

  /** After the prefix, a character that cannot start a `%d` conversion gives -1. */
  lemma VeNumberWithoutNumber(vedev: string)
    requires VeSlotPrefix <= vedev
    requires |vedev| == |VeSlotPrefix| || var c := vedev[|VeSlotPrefix|];
      !IsDigit(c) && !IsSpace(c) && c != '-' && c != '+'
    ensures VeNumber(vedev) == -1
  {
  }
}
