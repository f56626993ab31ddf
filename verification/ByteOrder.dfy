// Words as they lie in memory: the loads, stores and byte swaps of bits.h on hosts
// of either byte order.
module ByteOrder {
  datatype Endian = Little | Big

  type Word4 = s: seq<bv8> | |s| == 4 witness [0, 0, 0, 0]

  function Load32(e: Endian, b: Word4): bv32 {
    match e
    case Little => (b[3] as bv32 << 24) | (b[2] as bv32 << 16) | (b[1] as bv32 << 8) | b[0] as bv32
    case Big => (b[0] as bv32 << 24) | (b[1] as bv32 << 16) | (b[2] as bv32 << 8) | b[3] as bv32
  }

  // The bytes of a word, the lowest first.
  function Bytes32(v: bv32): Word4 {
    [(v & 0xff) as bv8, ((v >> 8) & 0xff) as bv8, ((v >> 16) & 0xff) as bv8, (v >> 24) as bv8]
  }

  function Store32(e: Endian, v: bv32): Word4 {
    var b := Bytes32(v);
    if e.Little? then b else [b[3], b[2], b[1], b[0]]
  }

  function ByteSwap32(v: bv32): bv32 {
    (v << 24) | ((v & 0xff00) << 8) | ((v >> 8) & 0xff00) | (v >> 24)
  }

  function HostToNet32(e: Endian, v: bv32): bv32 {
    if e.Little? then ByteSwap32(v) else v
  }

  function Bytes64(v: bv64): (b: seq<bv8>)
    ensures |b| == 8
  {
    [(v & 0xff) as bv8, ((v >> 8) & 0xff) as bv8, ((v >> 16) & 0xff) as bv8, ((v >> 24) & 0xff) as bv8,
     ((v >> 32) & 0xff) as bv8, ((v >> 40) & 0xff) as bv8, ((v >> 48) & 0xff) as bv8, (v >> 56) as bv8]
  }

  function Store64(e: Endian, v: bv64): (s: seq<bv8>)
    ensures |s| == 8
  {
    var b := Bytes64(v);
    if e.Little? then b else [b[7], b[6], b[5], b[4], b[3], b[2], b[1], b[0]]
  }

  function ByteSwap64(v: bv64): bv64 {
    (v << 56) | ((v & 0xff00) << 40) | ((v & 0xff_0000) << 24) | ((v & 0xff00_0000) << 8) |
    ((v >> 8) & 0xff00_0000) | ((v >> 24) & 0xff_0000) | ((v >> 40) & 0xff00) | (v >> 56)
  }

  function HostToNet64(e: Endian, v: bv64): bv64 {
    if e.Little? then ByteSwap64(v) else v
  }

  // Whatever the host, a swapped load reads big-endian and a swapped store writes it.

  lemma LoadLittleBytes(b0: bv8, b1: bv8, b2: bv8, b3: bv8)
    ensures var v := (b3 as bv32 << 24) | (b2 as bv32 << 16) | (b1 as bv32 << 8) | b0 as bv32;
            (v & 0xff) as bv8 == b0 && ((v >> 8) & 0xff) as bv8 == b1 && ((v >> 16) & 0xff) as bv8 == b2 && (v >> 24) as bv8 == b3
  {
  }

  lemma SwapIsLoadBig(v: bv32)
    ensures ByteSwap32(v) == Load32(Big, Bytes32(v))
  {
  }

  lemma LoadIsBigEndian(e: Endian, b: Word4)
    ensures HostToNet32(e, Load32(e, b)) == Load32(Big, b)
  {
    if e.Little? {
      hide ByteSwap32;
      SwapIsLoadBig(Load32(e, b));
      LoadLittleBytes(b[0], b[1], b[2], b[3]);
      assert Bytes32(Load32(e, b)) == b;
    }
  }

  lemma StoreIsBigEndian(e: Endian, v: bv32)
    ensures Store32(e, HostToNet32(e, v)) == Store32(Big, v)
  {
  }

  lemma Store64IsBigEndian(e: Endian, v: bv64)
    ensures Store64(e, HostToNet64(e, v)) == Store64(Big, v)
  {
  }

  // Big-endian stores and loads undo each other.
  lemma LoadOfStore(v: bv32)
    ensures Load32(Big, Store32(Big, v)) == v
  {
  }
}
