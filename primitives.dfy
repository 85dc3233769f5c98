/**
  * Byte-level primitives shared by the whole model: bytes and fixed-width integers,
  * 32-byte keys and hashes, the hash function and the address derivation (both taken
  * as parameters, since their internals are outside the model), and the lexicographic
  * order that Rust uses when it compares two `[u8; 32]` values.
  */
module Primitives {

  newtype byte = x: int | 0 <= x < 0x100

  type u32 = x: int | 0 <= x < 0x1_0000_0000
  type u64 = x: int | 0 <= x < 0x1_0000_0000_0000_0000

  const U64_MAX: int := 0xFFFF_FFFF_FFFF_FFFF

  /** A byte string of `n` zero bytes. */
  function Zeros(n: nat): (z: seq<byte>)
    ensures |z| == n
    ensures forall i :: 0 <= i < n ==> z[i] == 0
  {
    seq(n, _ => 0)
  }

  type Bytes32 = s: seq<byte> | |s| == 32 witness seq(32, _ => 0 as byte)

  /** A SHA-256 digest (`[u8; 32]`). */
  type Hash = Bytes32

  /** An account address (`Pubkey`). */
  type Pubkey = Bytes32

  /** `Pubkey::default()`: 32 zero bytes. The system program's address is the same value. */
  const DefaultPubkey: Pubkey := [0, 0, 0, 0, 0, 0, 0, 0, 0, 0, 0, 0, 0, 0, 0, 0, 0, 0, 0, 0, 0, 0, 0, 0, 0, 0, 0, 0, 0, 0, 0, 0]
  const SystemProgramId: Pubkey := DefaultPubkey

  /** `hashv(parts)`: SHA-256 of the concatenation of the parts. */
  type Hasher = seq<byte> -> Hash

  /** `Pubkey::find_program_address(seeds, program_id)`: the address and its bump. */
  type Deriver = (seq<seq<byte>>, Pubkey) -> (Pubkey, byte)

  /** Two different inputs with the same digest. */
  predicate Collision(H: Hasher, x: seq<byte>, y: seq<byte>) {
    x != y && H(x) == H(y)
  }

  /** The bytes of an ASCII string literal (`b"..."`). */
  function Ascii(s: string): (b: seq<byte>)
    requires forall i :: 0 <= i < |s| ==> s[i] < 128 as char
    ensures |b| == |s|
    ensures forall i :: 0 <= i < |s| ==> b[i] as int == s[i] as int
  {
    seq(|s|, i requires 0 <= i < |s| => s[i] as int as byte)
  }

  /** `data` with `bytes` written in place at `offset`. */
  function Overwrite(data: seq<byte>, offset: nat, bytes: seq<byte>): (r: seq<byte>)
    requires offset + |bytes| <= |data|
    ensures |r| == |data|
    ensures forall i :: 0 <= i < |data| ==>
              r[i] == if offset <= i < offset + |bytes| then bytes[i - offset] else data[i]
  {
    data[..offset] + bytes + data[offset + |bytes|..]
  }

  /** Lexicographic order on byte strings of equal length: `a <= b` on `[u8; N]`. */
  predicate LexLe(a: seq<byte>, b: seq<byte>)
    requires |a| == |b|
    decreases |a|
  {
    |a| == 0 || a[0] < b[0] || (a[0] == b[0] && LexLe(a[1..], b[1..]))
  }

  lemma {:induction false} LexLeTotal(a: seq<byte>, b: seq<byte>)
    requires |a| == |b|
    ensures LexLe(a, b) || LexLe(b, a)
    decreases |a|
  {
    if |a| > 0 && a[0] == b[0] {
      LexLeTotal(a[1..], b[1..]);
    }
  }

  lemma {:induction false} LexLeAntisymmetric(a: seq<byte>, b: seq<byte>)
    requires |a| == |b|
    requires LexLe(a, b) && LexLe(b, a)
    ensures a == b
    decreases |a|
  {
    if |a| > 0 {
      LexLeAntisymmetric(a[1..], b[1..]);
      assert a == [a[0]] + a[1..] && b == [b[0]] + b[1..];
    }
  }

  /** Splitting a concatenation at a known boundary recovers both halves. */
  lemma ConcatInjective(a: seq<byte>, b: seq<byte>, c: seq<byte>, d: seq<byte>)
    requires |a| == |c|
    requires a + b == c + d
    ensures a == c && b == d
  {
    assert a == (a + b)[..|a|] && c == (c + d)[..|c|];
    assert b == (a + b)[|a|..] && d == (c + d)[|c|..];
  }
}
