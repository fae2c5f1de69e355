/** CScript: pushing integers and data onto a byte vector, and reading instructions back. */
module Script {
  import opened Basics
  import opened BigNum

  const OP_PUSHDATA1: byte := 0x4c
  const OP_PUSHDATA2: byte := 0x4d
  const OP_PUSHDATA4: byte := 0x4e
  const OP_1NEGATE: byte := 0x4f
  const OP_1: byte := 0x51
  const OP_INVALIDOPCODE: byte := 0xff

  // ----- little-endian sizes

  function LE(n: nat, width: nat): (r: seq<byte>)
    ensures |r| == width
  {
    if width == 0 then [] else [n % 256] + LE(n / 256, width - 1)
  }

  function FromLE(s: seq<byte>): nat {
    if s == [] then 0 else s[0] + 256 * FromLE(s[1..])
  }

  lemma {:induction false} LERoundTrip(n: nat, width: nat)
    requires n < Pow256(width)
    ensures FromLE(LE(n, width)) == n
  {
    if width > 0 {
      LERoundTrip(n / 256, width - 1);
      assert LE(n, width)[1..] == LE(n / 256, width - 1);
    }
  }

  lemma FromLEByte(b: byte)
    ensures FromLE([b]) == b
  {
    assert [b][1..] == [];
  }

  // ----- instructions

  /** An instruction as the reader reports it: an opcode and, for pushes, the operand. */
  datatype Instruction = Instruction(opcode: byte, data: seq<byte>)

  function PushOpcode(size: nat): byte {
    if size < OP_PUSHDATA1 then size
    else if size <= 0xff then OP_PUSHDATA1
    else if size <= 0xffff then OP_PUSHDATA2
    else OP_PUSHDATA4
  }

  function PushSize(size: nat): seq<byte> {
    if size < OP_PUSHDATA1 then []
    else if size <= 0xff then LE(size, 1)
    else if size <= 0xffff then LE(size, 2)
    else LE(size, 4)
  }

  function PushBytes(b: seq<byte>): seq<byte> {
    [PushOpcode(|b|)] + PushSize(|b|) + b
  }

  /** getvch: the little-endian vector of a number. */
  function Getvch(n: int): seq<byte> {
    Reversed(MpiEncode(n))
  }

  /** setvch: the number of a little-endian vector. */
  function Setvch(v: seq<byte>): int {
    MpiDecode(Reversed(v))
  }

  function IntBytes(n: int): seq<byte> {
    if n == -1 || 1 <= n <= 16 then [n + OP_1 - 1] else PushBytes(Getvch(n))
  }

  /** The four forms of a push: the length itself up to 75, and 76, 77 or 78 with one, two or four bytes of length. */
  lemma PushForms(b: seq<byte>)
    requires |b| < 0x1_0000_0000
    ensures |b| <= 75 ==> PushBytes(b) == [|b|] + b
    ensures 76 <= |b| <= 255 ==> PushBytes(b) == [76, |b|] + b
    ensures 256 <= |b| <= 65_535 ==> PushBytes(b) == [77, |b| % 256, |b| / 256] + b
    ensures 65_536 <= |b| ==>
      PushBytes(b) == [78, |b| % 256, |b| / 256 % 256, |b| / 65_536 % 256, |b| / 16_777_216] + b
  {
    hide LE;
    FewBytes(|b|);
  }

  lemma FewBytes(n: nat)
    requires n < 0x1_0000_0000
    ensures LE(n, 0) == [] && LE(n, 1) == [n % 256] && LE(n, 2) == [n % 256, n / 256 % 256]
    ensures LE(n, 4) == [n % 256, n / 256 % 256, n / 65_536 % 256, n / 16_777_216]
  {
    assert LE(n / 256, 1) == [n / 256 % 256];
    var m := n / 65_536;
    assert n / 256 / 256 == m && m / 256 == n / 16_777_216 < 256;
    assert LE(m / 256, 1) == [m / 256] && LE(m, 2) == [m % 256, m / 256];
    assert LE(n / 256, 3) == [n / 256 % 256] + LE(m, 2);
  }

  /** Small numbers: opcodes 79 and 81 to 96 for -1 and 1 to 16, the empty push for 0, and above 16 one byte up to
      127, and two bytes, the lower first, up to 32,767. */
  lemma SmallNumbers(n: int)
    ensures n == -1 ==> IntBytes(n) == [79]
    ensures 1 <= n <= 16 ==> IntBytes(n) == [80 + n]
    ensures n == 0 ==> IntBytes(n) == [0]
    ensures 17 <= n <= 127 ==> IntBytes(n) == [1, n]
    ensures 128 <= n <= 32_767 ==> IntBytes(n) == [2, n % 256, n / 256]
  {
    if 17 <= n <= 32_767 { SmallBytesOf(n); }
  }

  lemma SmallBytesOf(n: nat)
    requires 17 <= n <= 32_767
    ensures n <= 127 ==> Getvch(n) == [n]
    ensures n >= 128 ==> Getvch(n) == [n % 256, n / 256]
  {
    assert ToBE(0) == [];
    if n < 256 {
      assert ToBE(n) == [n];
    } else {
      assert ToBE(n / 256) == [n / 256];
      assert ToBE(n) == [n / 256, n % 256];
    }
  }

  datatype Read = Failed | Got(ins: Instruction, next: nat)

  class CScript {
    var vch: seq<byte>

    constructor ()
      ensures vch == []
    {
      vch := [];
    }

    method PushData(b: seq<byte>)
      requires |b| < 0x1_0000_0000
      modifies this
      ensures vch == old(vch) + PushBytes(b)
    {
      if |b| < OP_PUSHDATA1 {
        vch := vch + [|b|];
      } else if |b| <= 0xff {
        vch := vch + [OP_PUSHDATA1];
        vch := vch + LE(|b|, 1);
      } else if |b| <= 0xffff {
        vch := vch + [OP_PUSHDATA2];
        vch := vch + LE(|b|, 2);
      } else {
        vch := vch + [OP_PUSHDATA4];
        vch := vch + LE(|b|, 4);
      }
      vch := vch + b;
      assert vch == old(vch) + PushBytes(b);
    }

    method PushInt64(n: int)
      requires -0x8000_0000_0000_0000 <= n < 0x8000_0000_0000_0000
      modifies this
      ensures vch == old(vch) + IntBytes(n)
    {
      if n == -1 || 1 <= n <= 16 {
        vch := vch + [n + OP_1 - 1];
      } else {
        var bn := SetInt64(n);
        IntVectorSize(n);
        PushData(Reversed(bn));
      }
    }

    /** GetOp2 from offset pc: the instruction and the offset after it. */
    method GetOp2(pc: nat) returns (ok: bool, opcodeRet: byte, vchRet: seq<byte>, next: nat)
      ensures ok <==> ReadAt(vch, pc).Got?
      ensures ok ==> ReadAt(vch, pc) == Got(Instruction(opcodeRet, vchRet), next)
    {
      ok, opcodeRet, vchRet, next := false, OP_INVALIDOPCODE, [], pc;
      if next >= |vch| {
        return;
      }
      var opcode := vch[next];
      next := next + 1;
      if opcode <= OP_PUSHDATA4 {
        var nSize: nat := 0;
        if opcode < OP_PUSHDATA1 {
          nSize := opcode;
        } else if opcode == OP_PUSHDATA1 {
          if |vch| - next < 1 {
            return;
          }
          nSize := vch[next];
          FromLEByte(vch[next]);
          assert vch[next..next + 1] == [vch[next]];
          next := next + 1;
        } else if opcode == OP_PUSHDATA2 {
          if |vch| - next < 2 {
            return;
          }
          nSize := FromLE(vch[next..next + 2]);
          next := next + 2;
        } else if opcode == OP_PUSHDATA4 {
          if |vch| - next < 4 {
            return;
          }
          nSize := FromLE(vch[next..next + 4]);
          next := next + 4;
        }
        if |vch| - next < nSize {
          return;
        }
        vchRet := vch[next..next + nSize];
        next := next + nSize;
      }
      ok, opcodeRet := true, opcode;
    }
  }

  /** How many bytes after the opcode hold the operand's size. */
  function SizeWidth(opcode: byte): nat {
    if opcode == OP_PUSHDATA1 then 1 else if opcode == OP_PUSHDATA2 then 2
    else if opcode == OP_PUSHDATA4 then 4 else 0
  }

  /** The instruction at an offset; the reader fails at the end and on a truncated operand. */
  function ReadAt(s: seq<byte>, pc: nat): Read {
    if pc >= |s| then Failed
    else if s[pc] > OP_PUSHDATA4 then Got(Instruction(s[pc], []), pc + 1)
    else
      var w := SizeWidth(s[pc]);
      if pc + 1 + w > |s| then Failed
      else
        var size := if w == 0 then s[pc] else FromLE(s[pc + 1..pc + 1 + w]);
        if pc + 1 + w + size > |s| then Failed
        else Got(Instruction(s[pc], s[pc + 1 + w..pc + 1 + w + size]), pc + 1 + w + size)
  }

  // ----- reading back what was pushed

  /** Something a script is built from: a data push or an opcode above the pushes. */
  datatype Item = Data(b: seq<byte>) | Opcode(op: byte)

  predicate Pushable(item: Item) {
    match item
    case Data(b) => |b| < 0x1_0000_0000
    case Opcode(op) => op > OP_PUSHDATA4
  }

  function ItemBytes(item: Item): seq<byte> {
    match item
    case Data(b) => PushBytes(b)
    case Opcode(op) => [op]
  }

  function ItemInstruction(item: Item): Instruction {
    match item
    case Data(b) => Instruction(PushOpcode(|b|), b)
    case Opcode(op) => Instruction(op, [])
  }

  /** The four parts of a push, found again inside a script. */
  lemma PushParts(before: seq<byte>, op: byte, size: seq<byte>, b: seq<byte>, after: seq<byte>)
    ensures var s := before + ([op] + size + b) + after;
      var at := |before| + 1;
      && |s| == at + |size| + |b| + |after|
      && s[|before|] == op
      && s[at..at + |size|] == size
      && s[at + |size|..at + |size| + |b|] == b
  {
  }

  lemma PushSizeOf(n: nat)
    requires n < 0x1_0000_0000
    ensures |PushSize(n)| == SizeWidth(PushOpcode(n))
    ensures if PushSize(n) == [] then PushOpcode(n) == n else FromLE(PushSize(n)) == n
  {
    PowersOf256();
    if n >= OP_PUSHDATA1 {
      LERoundTrip(n, |PushSize(n)|);
    }
  }

  lemma ReadPushed(before: seq<byte>, item: Item, after: seq<byte>)
    requires Pushable(item)
    ensures ReadAt(before + ItemBytes(item) + after, |before|)
         == Got(ItemInstruction(item), |before| + |ItemBytes(item)|)
  {
    match item
    case Opcode(op) =>
      assert (before + [op] + after)[|before|] == op;
    case Data(b) =>
      PushSizeOf(|b|);
      PushParts(before, PushOpcode(|b|), PushSize(|b|), b, after);
  }

  function ScriptOf(items: seq<Item>): seq<byte> {
    if items == [] then [] else ScriptOf(items[..|items| - 1]) + ItemBytes(items[|items| - 1])
  }

  /** Reading instruction after instruction from an offset until the reader fails. */
  function ReadAll(s: seq<byte>, pc: nat): (seq<Instruction>, nat)
    decreases |s| - pc
  {
    match ReadAt(s, pc)
    case Failed => ([], pc)
    case Got(ins, next) => var (rest, end) := ReadAll(s, next); ([ins] + rest, end)
  }

  function Instructions(items: seq<Item>): (r: seq<Instruction>)
    ensures |r| == |items|
  {
    seq(|items|, i requires 0 <= i < |items| => ItemInstruction(items[i]))
  }

  /** A script built from pushes and opcodes reads back as exactly that sequence, to its last byte. */
  lemma ScriptRoundTrip(items: seq<Item>)
    requires forall i :: 0 <= i < |items| ==> Pushable(items[i])
    ensures ReadAll(ScriptOf(items), 0) == (Instructions(items), |ScriptOf(items)|)
  {
    ReadFrom(items, 0);
    assert items[..0] == [] && items[0..] == items;
  }

  lemma {:induction false} ReadFrom(items: seq<Item>, k: nat)
    requires k <= |items|
    requires forall i :: 0 <= i < |items| ==> Pushable(items[i])
    ensures ReadAll(ScriptOf(items), |ScriptOf(items[..k])|) == (Instructions(items[k..]), |ScriptOf(items)|)
    decreases |items| - k
  {
    hide ItemBytes, ItemInstruction, Pushable, ReadAll;
    if k == |items| {
      assert items[..k] == items;
      ReadEnd(ScriptOf(items));
    } else {
      var before := ScriptOf(items[..k]);
      assert items[..k + 1][..k] == items[..k];
      var after := TailOf(items, k + 1);
      assert ScriptOf(items) == before + ItemBytes(items[k]) + after;
      ReadNext(before, items[k], after);
      ReadFrom(items, k + 1);
      assert items[k..] == [items[k]] + items[k + 1..];
      assert Instructions(items[k..]) == [ItemInstruction(items[k])] + Instructions(items[k + 1..]);
    }
  }

  lemma ReadEnd(s: seq<byte>)
    ensures ReadAll(s, |s|) == ([], |s|)
  {
  }

  lemma ReadNext(before: seq<byte>, item: Item, after: seq<byte>)
    requires Pushable(item)
    ensures var s := before + ItemBytes(item) + after;
      var (rest, end) := ReadAll(s, |before + ItemBytes(item)|);
      ReadAll(s, |before|) == ([ItemInstruction(item)] + rest, end)
  {
    hide ItemBytes, ItemInstruction, Pushable, ReadAt;
    ReadPushed(before, item, after);
  }

  lemma {:induction false} TailOf(items: seq<Item>, k: nat) returns (tail: seq<byte>)
    requires k <= |items|
    ensures ScriptOf(items) == ScriptOf(items[..k]) + tail
    decreases |items| - k
  {
    if k == |items| {
      tail := [];
      assert items[..k] == items;
    } else {
      var rest := TailOf(items, k + 1);
      assert items[..k + 1][..k] == items[..k];
      tail := ItemBytes(items[k]) + rest;
    }
  }

  // ----- integers

  /** The number a pushed integer stands for. */
  function IntOf(ins: Instruction): int {
    if ins.opcode == OP_1NEGATE || OP_1 <= ins.opcode <= OP_1 + 15 then ins.opcode - (OP_1 - 1)
    else Setvch(ins.data)
  }

  /** 64-bit integers push at most nine bytes. */
  lemma IntVectorSize(n: int)
    requires -0x8000_0000_0000_0000 <= n < 0x8000_0000_0000_0000
    ensures |Getvch(n)| <= 9
  {
    DigitCount(Abs(n), 8);
    PowersOf256();
  }

  lemma {:induction false} DigitCount(n: nat, k: nat)
    requires n < Pow256(k)
    ensures |ToBE(n)| <= k
  {
    if n > 0 && k > 0 { DigitCount(n / 256, k - 1); }
  }

  lemma GetvchRoundTrip(n: int)
    ensures Setvch(Getvch(n)) == n
  {
    MpiRoundTrip(n);
    assert Reversed(Reversed(MpiEncode(n))) == MpiEncode(n);
  }

  /** Any 64-bit integer, the least one included, is read back from where it was pushed. */
  lemma IntRoundTrip(before: seq<byte>, n: int, after: seq<byte>)
    requires -0x8000_0000_0000_0000 <= n < 0x8000_0000_0000_0000
    ensures ReadAt(before + IntBytes(n) + after, |before|).Got?
    ensures IntOf(ReadAt(before + IntBytes(n) + after, |before|).ins) == n
    ensures ReadAt(before + IntBytes(n) + after, |before|).next == |before| + |IntBytes(n)|
  {
    if n == -1 || 1 <= n <= 16 {
      ReadPushed(before, Opcode(n + OP_1 - 1), after);
    } else {
      IntVectorSize(n);
      GetvchRoundTrip(n);
      ReadPushed(before, Data(Getvch(n)), after);
    }
  }

  lemma ReadsInt(s: seq<byte>, n: int)
    requires -0x8000_0000_0000_0000 <= n < 0x8000_0000_0000_0000
    requires IntBytes(n) <= s
    ensures ReadAt(s, 0).Got? && IntOf(ReadAt(s, 0).ins) == n
  {
    var after := s[|IntBytes(n)|..];
    IntRoundTrip([], n, after);
    assert [] + IntBytes(n) + after == s;
  }

  /** A script starts with the push of at most one integer. */
  lemma IntPushPrefixFree(s: seq<byte>, m: int, n: int)
    requires -0x8000_0000_0000_0000 <= m < 0x8000_0000_0000_0000
    requires -0x8000_0000_0000_0000 <= n < 0x8000_0000_0000_0000
    requires IntBytes(m) <= s && IntBytes(n) <= s
    ensures m == n
  {
    ReadsInt(s, m);
    ReadsInt(s, n);
  }
}
