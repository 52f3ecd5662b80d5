// Splitting a subnet by bytes and binary digits (internal/compute), proved to be
// plain arithmetic on block numbers.
module Compute {
  import opened Powers
  import opened Blocks

  datatype Option<+T> = None | Some(value: T)

  type Byte = n: int | 0 <= n < 256

  // ---------- Addresses as four bytes ----------

  // Horner evaluation of the dotted form, most significant byte first.
  function FromBytes(s: seq<Byte>): (v: nat)
  {
    if s == [] then 0 else FromBytes(s[..|s| - 1]) * 256 + s[|s| - 1]
  }

  // The n low-order base-256 digits of v.
  function ToBytes(v: nat, n: nat): (s: seq<Byte>)
    ensures |s| == n
  {
    if n == 0 then [] else ToBytes(v / 256, n - 1) + [v % 256]
  }

  method AddrToValue(address: seq<Byte>) returns (sum: nat)
    ensures sum == FromBytes(address)
  {
    sum := 0;
    for i := 0 to |address|
      invariant sum == FromBytes(address[..i])
    {
      assert address[..i + 1][..i] == address[..i];
      sum := sum * 256 + address[i];
    }
    assert address[..|address|] == address;
  }

  method ValueToAddr(value: nat) returns (output: seq<Byte>)
    ensures output == ToBytes(value, 4)
  {
    output := [];
    var v := value;
    var index := 3;
    while index >= 0
      invariant -1 <= index <= 3
      invariant |output| == 3 - index
      invariant ToBytes(value, 4) == ToBytes(v, index + 1) + output
    {
      assert ToBytes(v, index + 1) == ToBytes(v / 256, index) + [v % 256];
      output := [v % 256] + output;
      v := v / 256;
      index := index - 1;
    }
  }

  lemma {:induction false} FromToBytes(v: nat, n: nat)
    requires v < Pow2(8 * n)
    ensures FromBytes(ToBytes(v, n)) == v
  {
    if n > 0 {
      Pow2Add(8, 8 * (n - 1));
      assert Pow2(8) == 256;
      FromToBytes(v / 256, n - 1);
      assert ToBytes(v, n)[..n - 1] == ToBytes(v / 256, n - 1);
    }
  }

  // An address survives its dotted form.
  lemma DottedRoundTrip(v: nat)
    requires v < ADDRESS_SPACE
    ensures FromBytes(ToBytes(v, 4)) == v
  {
    assert ADDRESS_SPACE == Pow2(8 * 4);
    FromToBytes(v, 4);
  }

  lemma {:induction false} ToFromBytes(s: seq<Byte>)
    ensures ToBytes(FromBytes(s), |s|) == s
    ensures FromBytes(s) < Pow2(8 * |s|)
  {
    if s != [] {
      ToFromBytes(s[..|s| - 1]);
      Pow2Add(8, 8 * (|s| - 1));
      assert Pow2(8) == 256;
      assert s == s[..|s| - 1] + [s[|s| - 1]];
    }
  }

  // ---------- Masks ----------

  const MASKCHECK: seq<Byte> := [0, 128, 192, 224, 240, 248, 252, 254, 255]

  method MaskIndex(b: Byte) returns (index: int)
    ensures index == -1 ==> b !in MASKCHECK
    ensures index != -1 ==> 0 <= index < |MASKCHECK| && MASKCHECK[index] == b
    ensures forall k :: 0 <= k < |MASKCHECK| && MASKCHECK[k] == b ==> index == k
  {
    for i := 0 to |MASKCHECK|
      invariant b !in MASKCHECK[..i]
    {
      if b == MASKCHECK[i] { return i; }
    }
    return -1;
  }

  // The value of the 8 - k low-order bits of a byte.
  function LowBits(x: Byte, k: nat): (r: int)
    requires k <= 8
    ensures 0 <= r <= x
  {
    match k
    case 0 => x % 256
    case 1 => x % 128
    case 2 => x % 64
    case 3 => x % 32
    case 4 => x % 16
    case 5 => x % 8
    case 6 => x % 4
    case 7 => x % 2
    case 8 => 0
  }

  lemma LowBitsIsRemainder(x: Byte, k: nat)
    requires k <= 8
    ensures LowBits(x, k) == x % Pow2(8 - k)
  {
    SmallPowers();
  }

  lemma SmallPowers()
    ensures Pow2(0) == 1 && Pow2(1) == 2 && Pow2(2) == 4 && Pow2(3) == 8 && Pow2(4) == 16
    ensures Pow2(5) == 32 && Pow2(6) == 64 && Pow2(7) == 128 && Pow2(8) == 256
  {
  }

  // How many of p bits fall into byte k: the ones of a mask, counted from its
  // first byte.
  function MaskBits(p: nat, k: nat): (n: nat)
    ensures n <= 8
  {
    if p <= 8 * k then 0 else if p >= 8 * k + 8 then 8 else p - 8 * k
  }

  // net.CIDRMask(p, 32).
  function Mask(p: nat): (m: seq<Byte>)
    ensures |m| == 4 && forall k :: 0 <= k < 4 ==> m[k] == MASKCHECK[MaskBits(p, k)]
  {
    [MASKCHECK[MaskBits(p, 0)], MASKCHECK[MaskBits(p, 1)],
     MASKCHECK[MaskBits(p, 2)], MASKCHECK[MaskBits(p, 3)]]
  }

  // x & m for a mask byte m: the bits below its leading ones are cleared.
  function AndMask(x: Byte, m: Byte): Byte
  {
    if m == 0 then x - LowBits(x, 0)
    else if m == 128 then x - LowBits(x, 1)
    else if m == 192 then x - LowBits(x, 2)
    else if m == 224 then x - LowBits(x, 3)
    else if m == 240 then x - LowBits(x, 4)
    else if m == 248 then x - LowBits(x, 5)
    else if m == 252 then x - LowBits(x, 6)
    else if m == 254 then x - LowBits(x, 7)
    else x
  }

  lemma AndMaskClears(x: Byte, k: nat)
    requires k <= 8
    ensures AndMask(x, MASKCHECK[k]) == x - LowBits(x, k)
  {
  }

  function ApplyMask(ip: seq<Byte>, mask: seq<Byte>): (r: seq<Byte>)
    requires |ip| == |mask| == 4
    ensures |r| == 4 && forall k :: 0 <= k < 4 ==> r[k] == AndMask(ip[k], mask[k])
  {
    seq(4, k requires 0 <= k < 4 => AndMask(ip[k], mask[k]))
  }

  // The length of the mask behind a block below a mask of p bits.
  function Longer(p: nat, block: nat): nat
  {
    if p + block <= 32 then p + block else 32
  }

  method AppendMask(baseMask: seq<Byte>, block: nat, ghost p: nat) returns (output: seq<Byte>)
    requires p <= 32 && baseMask == Mask(p)
    ensures output == Mask(Longer(p, block))
  {
    ghost var goal := Longer(p, block);
    var remain := block;
    output := [];
    for index := 0 to 4
      invariant |output| == index
      invariant forall k :: 0 <= k < index ==> output[k] == MASKCHECK[MaskBits(goal, k)]
      invariant remain == Remaining(p, block, index)
    {
      var value := baseMask[index];
      ghost var bits := MaskBits(p, index);
      MaskStep(p, block, index);
      if value == 255 || remain == 0 {
        output := output + [value];
      } else {
        var mIndex := MaskIndex(value);
        assert mIndex == bits;
        var addable := 8 - mIndex;
        if remain > addable {
          remain := remain - addable;
          output := output + [255];
        } else {
          output := output + [MASKCHECK[mIndex + remain]];
          remain := 0;
        }
      }
    }
  }

  // Bits of the block still to be laid down when byte k is reached.
  function Remaining(p: nat, block: nat, k: nat): nat
  {
    if 8 * k <= p then block else if p + block <= 8 * k then 0 else p + block - 8 * k
  }

  lemma MaskStep(p: nat, block: nat, k: nat)
    requires p <= 32 && k < 4
    ensures var goal := Longer(p, block);
      var bits, remain := MaskBits(p, k), Remaining(p, block, k);
      && (MASKCHECK[bits] == 255 <==> bits == 8)
      && (if bits == 8 || remain == 0 then MaskBits(goal, k) == bits && Remaining(p, block, k + 1) == remain
          else if remain > 8 - bits then MaskBits(goal, k) == 8 && Remaining(p, block, k + 1) == remain - (8 - bits)
          else MaskBits(goal, k) == bits + remain && Remaining(p, block, k + 1) == 0)
  {
  }

  // ---------- Binary digits ----------

  function Digit(d: char): nat { if d == '1' then 1 else 0 }

  // strconv.ParseInt(s, 2, 64) on a string of binary digits.
  function ParseBinary(s: string): nat
  {
    if s == "" then 0 else 2 * ParseBinary(s[..|s| - 1]) + Digit(s[|s| - 1])
  }

  // fmt.Sprintf("%b", n).
  function FormatBinary(n: nat): (s: string)
    ensures |s| >= 1
  {
    if n < 2 then [if n == 1 then '1' else '0']
    else FormatBinary(n / 2) + [if n % 2 == 1 then '1' else '0']
  }

  function Zeros(n: nat): (s: string)
    ensures |s| == n && forall i :: 0 <= i < n ==> s[i] == '0'
  {
    if n == 0 then "" else "0" + Zeros(n - 1)
  }

  lemma {:induction false} ParseFormat(n: nat)
    ensures ParseBinary(FormatBinary(n)) == n
  {
    if n >= 2 {
      ParseFormat(n / 2);
      assert FormatBinary(n)[..|FormatBinary(n)| - 1] == FormatBinary(n / 2);
    } else {
      assert FormatBinary(n)[..0] == "";
    }
  }

  lemma {:induction false} FormatLength(n: nat, b: nat)
    requires n < Pow2(b)
    ensures |FormatBinary(n)| <= if b == 0 then 1 else b
  {
    if n >= 2 { FormatLength(n / 2, b - 1); }
  }

  lemma {:induction false} ParseBound(s: string)
    ensures ParseBinary(s) < Pow2(|s|)
  {
    if s != "" { ParseBound(s[..|s| - 1]); }
  }

  lemma {:induction false} ParseConcat(a: string, b: string)
    ensures ParseBinary(a + b) == ParseBinary(a) * Pow2(|b|) + ParseBinary(b)
  {
    if b == "" {
      assert a + b == a;
    } else {
      var b' := b[..|b| - 1];
      ParseConcat(a, b');
      assert (a + b)[..|a + b| - 1] == a + b';
      assert 2 * (ParseBinary(a) * Pow2(|b'|)) == ParseBinary(a) * (2 * Pow2(|b'|));
    }
  }

  lemma {:induction false} ParseZeros(n: nat)
    ensures ParseBinary(Zeros(n)) == 0
  {
    if n > 0 {
      ParseZeros(n - 1);
      assert Zeros(n)[..n - 1] == Zeros(n - 1);
    }
  }

  lemma ParsePadded(n: nat, s: string)
    ensures ParseBinary(Zeros(n) + s) == ParseBinary(s)
  {
    ParseConcat(Zeros(n), s);
    ParseZeros(n);
  }

  // ---------- Laying the digits after the mask ----------

  // The 32-digit line the digits are laid on, with room to run past its end:
  // p zeros under the mask, the digits, then zeros.
  function Line(p: nat, digits: string): (s: string)
    ensures |s| == p + |digits| + 32
  {
    Zeros(p) + digits + Zeros(32)
  }

  function Window(p: nat, digits: string, k: nat): (s: string)
    requires k < 4
    ensures |s| == 8
  {
    Line(p, digits)[8 * k..8 * k + 8]
  }

  // The digits not yet laid when byte k is reached.
  function Rest(p: nat, digits: string, k: nat): string
  {
    if 8 * k <= p then digits else if 8 * k - p >= |digits| then "" else digits[8 * k - p..]
  }

  // One byte's share: the mask's m bits as zeros, then digits, then zeros.
  ghost predicate Share(m: nat, rest: string, window: string, rest': string)
    requires m <= 8
  {
    && (m == 8 || rest == "" ==> window == Zeros(8) && rest' == rest)
    && (m < 8 && |rest| > 8 - m ==> window == Zeros(m) + rest[..8 - m] && rest' == rest[8 - m..])
    && (m < 8 && |rest| <= 8 - m ==> window == Zeros(m) + rest + Zeros(8 - m - |rest|) && rest' == "")
  }

  lemma LineAt(p: nat, digits: string, i: nat)
    requires i < p + |digits| + 32
    ensures Line(p, digits)[i] == if p <= i < p + |digits| then digits[i - p] else '0'
  {
  }

  lemma WindowAt(p: nat, digits: string, k: nat, i: nat)
    requires k < 4 && i < 8
    ensures var j := 8 * k + i;
      Window(p, digits, k)[i] == if p <= j < p + |digits| then digits[j - p] else '0'
  {
    LineAt(p, digits, 8 * k + i);
  }

  // Under a full mask byte, or when no digit is left, the byte's share is zeros.
  lemma WindowOfZeros(p: nat, digits: string, k: nat)
    requires p <= 32 && k < 4 && (MaskBits(p, k) == 8 || Rest(p, digits, k) == "")
    ensures Window(p, digits, k) == Zeros(8)
  {
    forall i | 0 <= i < 8 ensures Window(p, digits, k)[i] == '0' { WindowAt(p, digits, k, i); }
  }

  lemma WindowOfDigits(p: nat, digits: string, k: nat, m: nat, rest: string)
    requires p <= 32 && k < 4 && m == MaskBits(p, k) && m < 8 && rest == Rest(p, digits, k) && |rest| > 8 - m
    ensures Window(p, digits, k) == Zeros(m) + rest[..8 - m]
  {
    var w := Zeros(m) + rest[..8 - m];
    forall i | 0 <= i < 8 ensures Window(p, digits, k)[i] == w[i] { WindowAt(p, digits, k, i); }
  }

  lemma WindowOfLastDigits(p: nat, digits: string, k: nat, m: nat, rest: string)
    requires p <= 32 && k < 4 && m == MaskBits(p, k) && m < 8 && rest == Rest(p, digits, k) && |rest| <= 8 - m
    ensures Window(p, digits, k) == Zeros(m) + rest + Zeros(8 - m - |rest|)
  {
    var w := Zeros(m) + rest + Zeros(8 - m - |rest|);
    forall i | 0 <= i < 8 ensures Window(p, digits, k)[i] == w[i] { WindowAt(p, digits, k, i); }
  }

  lemma RestStep(p: nat, digits: string, k: nat, m: nat, rest: string)
    requires p <= 32 && k < 4 && m == MaskBits(p, k) && rest == Rest(p, digits, k)
    ensures Rest(p, digits, k + 1) == if m == 8 then rest else if |rest| > 8 - m then rest[8 - m..] else ""
  {
  }

  lemma WindowIsShare(p: nat, digits: string, k: nat)
    requires p <= 32 && k < 4
    ensures Share(MaskBits(p, k), Rest(p, digits, k), Window(p, digits, k), Rest(p, digits, k + 1))
  {
    var m, rest := MaskBits(p, k), Rest(p, digits, k);
    RestStep(p, digits, k, m, rest);
    if m == 8 || rest == "" { WindowOfZeros(p, digits, k); }
    if m < 8 && |rest| > 8 - m { WindowOfDigits(p, digits, k, m, rest); }
    if m < 8 && |rest| <= 8 - m { WindowOfLastDigits(p, digits, k, m, rest); }
  }

  lemma Shares(p: nat, digits: string) returns (windows: seq<string>, rests: seq<string>)
    requires p <= 32
    ensures |windows| == 4 && |rests| == 5 && rests[0] == digits
    ensures forall k :: 0 <= k < 4 ==> windows[k] == Window(p, digits, k)
    ensures forall k :: 0 <= k < 4 ==> Share(MaskBits(p, k), rests[k], windows[k], rests[k + 1])
  {
    windows := seq(4, k requires 0 <= k < 4 => Window(p, digits, k));
    rests := seq(5, k requires 0 <= k < 5 => Rest(p, digits, k));
    forall k | 0 <= k < 4 ensures Share(MaskBits(p, k), rests[k], windows[k], rests[k + 1]) {
      WindowIsShare(p, digits, k);
    }
  }

  lemma WindowFits(p: nat, digits: string, k: nat)
    requires p <= 32 && k < 4
    ensures ParseBinary(Window(p, digits, k)) < Pow2(8 - MaskBits(p, k))
  {
    var m, w := MaskBits(p, k), Window(p, digits, k);
    assert w == Zeros(m) + w[m..];
    ParsePadded(m, w[m..]);
    ParseBound(w[m..]);
  }

  // No bit of ip is set outside the mask.
  predicate Masked(ip: seq<Byte>, p: nat)
    requires |ip| == 4
  {
    forall k :: 0 <= k < 4 ==> LowBits(ip[k], MaskBits(p, k)) == 0
  }

  // Adding below the mask neither leaves the byte nor touches the masked bits.
  lemma ByteRoom(x: Byte, m: nat, t: nat)
    requires m <= 8 && LowBits(x, m) == 0 && t < Pow2(8 - m)
    ensures x + t < 256 && LowBits(x + t, m) == t
  {
    var u := Pow2(8 - m);
    LowBitsIsRemainder(x, m);
    Pow2Add(m, 8 - m);
    SmallPowers();
    AlignedRoom(x, Pow2(m), u);
    SumRemainder(x, t, u);
    LowBitsIsRemainder(x + t, m);
  }

  lemma SumRemainder(x: int, t: int, u: int)
    requires 0 <= t < u && x % u == 0
    ensures (x + t) % u == t
  {
    Aligned(x, u);
    DivModUnique(x + t, x / u, t, u);
  }

  lemma FourBytes(s: seq<Byte>)
    requires |s| == 4
    ensures FromBytes(s) == (((s[0] as int) * 256 + s[1] as int) * 256 + s[2] as int) * 256 + s[3] as int
  {
    assert s[..3][..2] == s[..2] && s[..2][..1] == s[..1] && s[..1][..0] == [];
    assert FromBytes(s[..1]) == s[0];
    assert FromBytes(s[..2]) == FromBytes(s[..1]) * 256 + s[1];
    assert FromBytes(s[..3]) == FromBytes(s[..2]) * 256 + s[2];
  }

  lemma FourWindows(p: nat, digits: string)
    ensures var v := (k: nat) requires k < 4 => ParseBinary(Window(p, digits, k));
      ParseBinary(Line(p, digits)[..32]) == ((v(0) * 256 + v(1)) * 256 + v(2)) * 256 + v(3)
  {
    var l := Line(p, digits);
    assert Pow2(8) == 256;
    assert l[..32] == l[..24] + Window(p, digits, 3);
    assert l[..24] == l[..16] + Window(p, digits, 2);
    assert l[..16] == l[..8] + Window(p, digits, 1);
    assert l[..8] == Window(p, digits, 0);
    ParseConcat(l[..24], Window(p, digits, 3));
    ParseConcat(l[..16], Window(p, digits, 2));
    ParseConcat(l[..8], Window(p, digits, 1));
  }

  // The offset that index i of 2^b adds below a mask of p bits. When the digits
  // do not all fit, the low-order ones are cut off.
  function Offset(p: nat, b: nat, i: nat): int
    requires p <= 32
  {
    if p + b <= 32 then i * Pow2(32 - p - b) else i / Pow2(p + b - 32)
  }

  lemma LineFits(p: nat, digits: string)
    requires p + |digits| <= 32
    ensures ParseBinary(Line(p, digits)[..32]) == ParseBinary(digits) * Pow2(32 - p - |digits|)
  {
    var tail := Zeros(32 - p - |digits|);
    assert Line(p, digits)[..32] == Zeros(p) + (digits + tail);
    ParsePadded(p, digits + tail);
    ParseConcat(digits, tail);
    ParseZeros(|tail|);
  }

  lemma LineOverflows(p: nat, digits: string)
    requires p <= 32 < p + |digits|
    ensures ParseBinary(Line(p, digits)[..32]) == ParseBinary(digits) / Pow2(p + |digits| - 32)
  {
    var hi, lo := digits[..32 - p], digits[32 - p..];
    assert Line(p, digits)[..32] == Zeros(p) + hi;
    ParsePadded(p, hi);
    assert digits == hi + lo;
    ParseConcat(hi, lo);
    ParseBound(lo);
    DivModUnique(ParseBinary(digits), ParseBinary(hi), ParseBinary(lo), Pow2(|lo|));
  }

  lemma LineIsZero(p: nat, digits: string)
    requires p <= 32 && ParseBinary(digits) == 0
    ensures ParseBinary(Line(p, digits)[..32]) == 0
  {
    if p + |digits| <= 32 { LineFits(p, digits); } else { LineOverflows(p, digits); }
  }

  lemma LineValue(p: nat, b: nat, i: nat, digits: string)
    requires p <= 32 && i < Pow2(b)
    requires |digits| == (if b == 0 then 1 else b) && ParseBinary(digits) == i
    ensures ParseBinary(Line(p, digits)[..32]) == Offset(p, b, i)
  {
    if b == 0 {
      LineIsZero(p, digits);
      assert i == 0 && Offset(p, b, 0) == 0;
    } else if p + b <= 32 {
      LineFits(p, digits);
    } else {
      LineOverflows(p, digits);
    }
  }

  method PadLeft(s: string, n: nat) returns (t: string)
    ensures t == Zeros(n) + s
  {
    t := s;
    for i := 0 to n
      invariant t == Zeros(i) + s
    {
      t := "0" + t;
      assert Zeros(i + 1) == "0" + Zeros(i);
    }
  }

  method PadRight(s: string, n: nat) returns (t: string)
    requires |s| <= n
    ensures t == s + Zeros(n - |s|)
  {
    t := s;
    while |t| < n
      invariant |s| <= |t| <= n && t == s + Zeros(|t| - |s|)
    {
      t := t + "0";
    }
  }

  // The digits a byte takes from those left over, padded to eight.
  method TakeDigits(valueInBinary: string, block: nat, mIndex: nat)
    returns (target: string, rest: string, left: nat)
    requires mIndex < 8 && |valueInBinary| == if block == 0 then 1 else block
    ensures |valueInBinary| > 8 - mIndex ==>
              target == Zeros(mIndex) + valueInBinary[..8 - mIndex] && rest == valueInBinary[8 - mIndex..] && left == |rest|
    ensures |valueInBinary| <= 8 - mIndex ==>
              target == Zeros(mIndex) + valueInBinary + Zeros(8 - mIndex - |valueInBinary|) && rest == ""
  {
    var addable := 8 - mIndex;
    if block > addable {
      left := block - addable;
      target := valueInBinary[..addable];
      rest := valueInBinary[addable..];
    } else {
      target, rest, left := valueInBinary, "", block;
    }
    target := PadLeft(target, mIndex);
    target := PadRight(target, 8);
  }

  function AddByte(x: Byte, target: string): Byte
  {
    (x + ParseBinary(target)) % 256
  }

  // One turn of the loop of addAddress.
  method LayByte(x: Byte, maskByte: Byte, valueInBinary: string, block: nat, ghost m: nat, ghost window: string, ghost rest': string)
    returns (y: Byte, rest: string, left: nat)
    requires m <= 8 && maskByte == MASKCHECK[m] && Share(m, valueInBinary, window, rest')
    requires valueInBinary == "" || |valueInBinary| == if block == 0 then 1 else block
    ensures y == AddByte(x, window) && rest == rest'
    ensures rest == "" || |rest| == if left == 0 then 1 else left
  {
    if maskByte == 255 || |valueInBinary| == 0 {
      NothingLaid(x);
      assert maskByte == 255 ==> m == 8;
      return x, valueInBinary, block;
    }
    var mIndex := MaskIndex(maskByte);
    var target;
    target, rest, left := TakeDigits(valueInBinary, block, mIndex);
    y := AddByte(x, target);
  }

  // The loop of addAddress over the four bytes.
  method LayDigits(base: seq<Byte>, mask: seq<Byte>, block: nat, digits: string, ghost p: nat)
    returns (output: seq<Byte>)
    requires p <= 32 && |base| == 4 && mask == Mask(p)
    requires |digits| == if block == 0 then 1 else block
    ensures |output| == 4
    ensures forall k :: 0 <= k < 4 ==> output[k] == AddByte(base[k], Window(p, digits, k))
  {
    var block, valueInBinary := block, digits;
    output := [];
    ghost var windows, rests := Shares(p, digits);
    for index := 0 to 4
      invariant |output| == index
      invariant valueInBinary == rests[index]
      invariant valueInBinary == "" || |valueInBinary| == if block == 0 then 1 else block
      invariant forall k :: 0 <= k < index ==> output[k] == AddByte(base[k], windows[k])
    {
      var y;
      y, valueInBinary, block :=
        LayByte(base[index], mask[index], valueInBinary, block, MaskBits(p, index), windows[index], rests[index + 1]);
      output := output + [y];
    }
  }

  lemma NothingLaid(x: Byte)
    ensures AddByte(x, Zeros(8)) == x
  {
    ParseZeros(8);
  }

  // The sum byte by byte, without carry from byte to byte.
  function AddBytes(base: seq<Byte>, v: nat): (s: seq<Byte>)
    requires |base| == 4
    ensures |s| == 4
  {
    seq(4, k requires 0 <= k < 4 => (base[k] as int + ToBytes(v, 4)[k] as int) % 256)
  }

  // What addAddress yields on any base, with or without host bits set: that sum, if
  // it leaves the masked bits alone.
  function SumInMask(base: seq<Byte>, p: nat, v: nat): (r: Option<seq<Byte>>)
    requires p <= 32 && |base| == 4
  {
    var sum := AddBytes(base, v);
    if ApplyMask(sum, Mask(p)) == ApplyMask(base, Mask(p)) then Some(sum) else None
  }

  method AddAddress(base: seq<Byte>, mask: seq<Byte>, block: nat, addValue: nat, ghost p: nat)
    returns (r: Option<seq<Byte>>)
    requires p <= 32 && |base| == 4 && mask == Mask(p)
    ensures r == if addValue < Pow2(block) then SumInMask(base, p, Offset(p, block, addValue)) else None
    ensures addValue < Pow2(block) && Masked(base, p) ==>
              r.Some? && FromBytes(r.value) == FromBytes(base) + Offset(p, block, addValue)
  {
    if addValue > Pow2(block) - 1 { return None; }
    var digits := FormatBinary(addValue);
    ParseFormat(addValue);
    FormatLength(addValue, block);
    var short := if |digits| < block then block - |digits| else 0;
    ParsePadded(short, digits);
    digits := PadLeft(digits, short);
    var output := LayDigits(base, mask, block, digits, p);
    LineValue(p, block, addValue, digits);
    LaidByBytes(base, output, p, digits);
    if Masked(base, p) { LaidWithinMask(base, output, p, digits); }
    if ApplyMask(output, mask) != ApplyMask(base, mask) { return None; }
    return Some(output);
  }

  lemma BytesOf(v: nat, a: Byte, b: Byte, c: Byte, d: Byte)
    requires v == ((a as int * 256 + b as int) * 256 + c as int) * 256 + d as int
    ensures ToBytes(v, 4) == [a, b, c, d]
  {
    FourBytes([a, b, c, d]);
    ToFromBytes([a, b, c, d]);
  }

  lemma WindowIsByte(p: nat, digits: string, k: nat)
    requires k < 4
    ensures ParseBinary(Window(p, digits, k)) < 256
  {
    assert Pow2(8) == 256;
    ParseBound(Window(p, digits, k));
  }

  lemma WindowsAreBytes(p: nat, digits: string)
    ensures var s := ToBytes(ParseBinary(Line(p, digits)[..32]), 4);
      forall k :: 0 <= k < 4 ==> s[k] == ParseBinary(Window(p, digits, k))
  {
    WindowIsByte(p, digits, 0);
    WindowIsByte(p, digits, 1);
    WindowIsByte(p, digits, 2);
    WindowIsByte(p, digits, 3);
    FourWindows(p, digits);
    BytesOf(ParseBinary(Line(p, digits)[..32]),
            ParseBinary(Window(p, digits, 0)), ParseBinary(Window(p, digits, 1)),
            ParseBinary(Window(p, digits, 2)), ParseBinary(Window(p, digits, 3)));
  }

  lemma LaidByBytes(base: seq<Byte>, output: seq<Byte>, p: nat, digits: string)
    requires p <= 32 && |base| == |output| == 4
    requires forall k :: 0 <= k < 4 ==> output[k] == AddByte(base[k], Window(p, digits, k))
    ensures output == AddBytes(base, ParseBinary(Line(p, digits)[..32]))
  {
    WindowsAreBytes(p, digits);
  }

  lemma LaidInByte(x: Byte, m: nat, w: string, y: Byte)
    requires m <= 8 && LowBits(x, m) == 0 && ParseBinary(w) < Pow2(8 - m) && y == AddByte(x, w)
    ensures y == x + ParseBinary(w) && AndMask(y, MASKCHECK[m]) == AndMask(x, MASKCHECK[m])
  {
    ByteRoom(x, m, ParseBinary(w));
    NoWrap(x, ParseBinary(w));
    AndMaskClears(x, m);
    AndMaskClears(y, m);
  }

  lemma NoWrap(x: Byte, t: nat)
    requires x + t < 256
    ensures (x + t) % 256 == x + t
  {
  }

  lemma SumByBytes(base: seq<Byte>, output: seq<Byte>, v: seq<nat>)
    requires |base| == |output| == |v| == 4
    requires forall k :: 0 <= k < 4 ==> output[k] == base[k] + v[k]
    ensures FromBytes(output) == FromBytes(base) + ((v[0] * 256 + v[1]) * 256 + v[2]) * 256 + v[3]
  {
    FourBytes(base);
    FourBytes(output);
  }

  lemma LaidWithinMask(base: seq<Byte>, output: seq<Byte>, p: nat, digits: string)
    requires p <= 32 && |base| == |output| == 4 && Masked(base, p)
    requires forall k :: 0 <= k < 4 ==> output[k] == AddByte(base[k], Window(p, digits, k))
    ensures ApplyMask(output, Mask(p)) == ApplyMask(base, Mask(p))
    ensures FromBytes(output) == FromBytes(base) + ParseBinary(Line(p, digits)[..32])
  {
    var v := seq(4, k requires 0 <= k < 4 => ParseBinary(Window(p, digits, k)));
    forall k | 0 <= k < 4
      ensures output[k] == base[k] + v[k]
      ensures AndMask(output[k], Mask(p)[k]) == AndMask(base[k], Mask(p)[k])
    {
      WindowFits(p, digits, k);
      LaidInByte(base[k], MaskBits(p, k), Window(p, digits, k), output[k]);
    }
    SumByBytes(base, output, v);
    FourWindows(p, digits);
  }

  // ---------- ComputeNet ----------

  lemma MaskedFiner(x: Byte, m: nat, m': nat)
    requires m <= m' <= 8 && LowBits(x, m) == 0
    ensures AndMask(x, MASKCHECK[m']) == x
  {
    AndMaskClears(x, m');
    LowBitsIsRemainder(x, m);
    LowBitsIsRemainder(x, m');
    Pow2Add(m' - m, 8 - m');
    AlignedFiner(x, Pow2(m' - m), Pow2(8 - m'));
  }

  // A masked address is not changed by a longer mask.
  lemma MaskedStays(ip: seq<Byte>, p: nat, q: nat)
    requires |ip| == 4 && p <= q <= 32 && Masked(ip, p)
    ensures ApplyMask(ip, Mask(q)) == ip
  {
    forall k | 0 <= k < 4 ensures ApplyMask(ip, Mask(q))[k] == ip[k] {
      MaskedFiner(ip[k], MaskBits(p, k), MaskBits(q, k));
    }
  }

  method ComputeNet(start: seq<Byte>, p: nat, index: nat, blocksize: nat) returns (r: Option<seq<Byte>>)
    requires |start| == 4 && p <= 32
    ensures var base := ApplyMask(start, Mask(Longer(p, blocksize)));
      r == if index < Pow2(blocksize) then SumInMask(base, p, Offset(p, blocksize, index)) else None
    ensures index < Pow2(blocksize) && Masked(start, p) ==>
              && r.Some? && |r.value| == 4
              && FromBytes(r.value) == FromBytes(start) + Offset(p, blocksize, index)
  {
    var mask := Mask(p);
    var interfaceMask := AppendMask(mask, blocksize, p);
    var baseIP := ApplyMask(start, interfaceMask);
    if Masked(start, p) {
      MaskedStays(start, p, Longer(p, blocksize));
    }
    r := AddAddress(baseIP, mask, blocksize, index, p);
  }

  // ---------- The same, on blocks ----------

  lemma LowByte(v: nat, n: nat)
    requires v % Pow2(n) == 0
    ensures (v % 256) % Pow2(if n <= 8 then n else 8) == 0
    ensures (v / 256) % Pow2(if n <= 8 then 0 else n - 8) == 0
  {
    assert Pow2(8) == 256;
    if n >= 8 {
      Pow2Add(n - 8, 8);
      AlignedFiner(v, Pow2(n - 8), 256);
      var q := v / Pow2(n);
      DivModUnique(v, q * Pow2(n - 8), 0, 256);
      DivModUnique(v / 256, q, 0, Pow2(n - 8));
    } else {
      Pow2Add(8 - n, n);
      var i := -(v / 256) * Pow2(8 - n);
      AlignedSum(v, i, Pow2(n));
      assert v % 256 == v + i * Pow2(n) by {
        assert i * Pow2(n) == -(v / 256) * (Pow2(8 - n) * Pow2(n));
      }
    }
  }

  // The z low-order zero bits, spread over the bytes from the end.
  lemma {:induction false} ZerosByByte(v: nat, z: nat, n: nat, k: nat)
    requires v % Pow2(z) == 0 && k < n
    ensures ToBytes(v, n)[k] % Pow2(MaskBits(z, n - 1 - k)) == 0
  {
    LowByte(v, z);
    if k < n - 1 { ZerosByByte(v / 256, if z <= 8 then 0 else z - 8, n - 1, k); }
  }

  lemma CanonicalIsMasked(c: Cidr)
    requires Canonical(c)
    ensures Masked(ToBytes(c.base, 4), c.len)
  {
    forall k | 0 <= k < 4 ensures LowBits(ToBytes(c.base, 4)[k], MaskBits(c.len, k)) == 0 {
      ZerosByByte(c.base, 32 - c.len, 4, k);
      LowBitsIsRemainder(ToBytes(c.base, 4)[k], MaskBits(c.len, k));
    }
  }

  // The block with a given index, if the index exists.
  function BlockAt(c: Cidr, b: nat, i: nat): Option<Cidr>
    requires c.len + b <= 32
  {
    if i < Pow2(b) then Some(Block(c, b, i)) else None
  }

  // The dotted form of a canonical network address.
  method NetworkBytes(c: Cidr) returns (start: seq<Byte>)
    requires Canonical(c)
    ensures |start| == 4 && FromBytes(start) == c.base && Masked(start, c.len)
  {
    start := ValueToAddr(c.base);
    CanonicalIsMasked(c);
    DottedRoundTrip(c.base);
  }

  // ComputeNet followed by GetCIDRFromByte.
  method ComputeBlock(c: Cidr, index: nat, blocksize: nat) returns (r: Option<Cidr>)
    requires Canonical(c) && c.len + blocksize <= 32
    ensures r == BlockAt(c, blocksize, index)
  {
    var start := NetworkBytes(c);
    var net := ComputeNet(start, c.len, index, blocksize);
    if net.None? { return None; }
    var value := AddrToValue(net.value);
    return Some(Cidr(value, c.len + blocksize));
  }
}
