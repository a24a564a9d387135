/** src/utils/hash.c: the djb2 string hash that picks a bucket. */
module Hash {
  import opened CBytes

  /** Number of values of the 64-bit `unsigned long`, and of `size_t`. */
  const WORD: nat := 0x1_0000_0000_0000_0000

  /** A plain `char` is signed, so a byte above 127 is read as a negative `int`. */
  function SignExtend(c: byte): int {
    if c < 128 then c as int else c as int - 256
  }

  function Pow33(n: nat): nat {
    if n == 0 then 1 else 33 * Pow33(n - 1)
  }

  /** Sum over i of key[i] * 33^(|key| - 1 - i), over the unbounded integers. */
  function Weighted(key: seq<byte>): int {
    if key == [] then 0 else SignExtend(key[0]) * Pow33(|key| - 1) + Weighted(key[1..])
  }

  function Polynomial(key: seq<byte>): int {
    5381 * Pow33(|key|) + Weighted(key)
  }

  /** The bucket of `key`: the djb2 polynomial, reduced once to a word and once to the table. */
  function HashOf(key: CString, tableSize: nat): (h: nat)
    requires tableSize > 0
    ensures h < tableSize
  {
    (Polynomial(key) % WORD) % tableSize
  }

  lemma {:induction false} WeightedAppend(key: seq<byte>, c: byte)
    ensures Weighted(key + [c]) == Weighted(key) * 33 + SignExtend(c)
  {
    if key == [] {
      assert [c][1..] == [];
      assert Weighted([c]) == SignExtend(c) * Pow33(0) + Weighted([]);
    } else {
      var k := key + [c];
      assert k[1..] == key[1..] + [c];
      WeightedAppend(key[1..], c);
      assert Pow33(|key|) == 33 * Pow33(|key| - 1);
      calc {
        Weighted(k);
        SignExtend(key[0]) * Pow33(|key|) + Weighted(key[1..] + [c]);
        SignExtend(key[0]) * (33 * Pow33(|key| - 1)) + Weighted(key[1..]) * 33 + SignExtend(c);
        (SignExtend(key[0]) * Pow33(|key| - 1) + Weighted(key[1..])) * 33 + SignExtend(c);
      }
    }
  }

  /** Reducing the accumulator after every shift and addition loses nothing. */
  lemma StepModulo(p: int, c: int)
    ensures (((p % WORD) * 32) % WORD + p % WORD + c) % WORD == (p * 33 + c) % WORD
  {
    var q, r := p / WORD, p % WORD;
    var s := (r * 32) / WORD;
    assert (r * 32) % WORD == r * 32 - s * WORD;
    assert p * 33 + c == (r * 33 + c) + (33 * q) * WORD;
    ModuloShift(r * 33 + c - s * WORD, s + 33 * q);
  }

  lemma ModuloShift(a: int, k: int)
    ensures (a + k * WORD) % WORD == a % WORD
  {
    var q, r := a / WORD, a % WORD;
    assert a + k * WORD == (q + k) * WORD + r;
    var q', r' := (a + k * WORD) / WORD, (a + k * WORD) % WORD;
    assert (q' - q - k) * WORD == r - r';
    assert q' - q - k >= 1 ==> (q' - q - k) * WORD >= WORD;
    assert q' - q - k <= -1 ==> (q' - q - k) * WORD <= 0 - WORD;
  }

  lemma StepWord(p: int, c: int)
    ensures (p * 33 + c) % WORD == ((p % WORD) * 33 + c) % WORD
  {
    var q, r := p / WORD, p % WORD;
    assert p * 33 + c == (r * 33 + c) + (33 * q) * WORD;
    ModuloShift(r * 33 + c, 33 * q);
  }

  lemma PolynomialAppend(key: seq<byte>, c: byte)
    ensures Polynomial(key + [c]) == Polynomial(key) * 33 + SignExtend(c)
  {
    WeightedAppend(key, c);
  }

  /** The hash of a longer key from that of a shorter one, in words: times 33, plus the signed byte. */
  lemma HashOfNext(key: CString, c: byte)
    requires c != NUL
    ensures HashOf(key + [c], WORD) == (HashOf(key, WORD) * 33 + if c < 128 then c as int else c as int - 256) % WORD
  {
    PolynomialAppend(key, c);
    StepWord(Polynomial(key), SignExtend(c));
  }

  /** The empty key, and the bucket as the word reduced to the table. */
  lemma HashToTable(key: CString, tableSize: nat)
    requires tableSize > 0
    ensures HashOf([], WORD) == 5381
    ensures HashOf(key, tableSize) == HashOf(key, WORD) % tableSize
  {
  }

  /** The loop of `djb2_hash`, word arithmetic at every step. */
  method Djb2(key: CString, tableSize: nat) returns (bucket: nat)
    requires tableSize > 0
    ensures bucket == HashOf(key, tableSize)
  {
    var hash: nat := 5381;
    var i := 0;
    while i < |key|
      invariant 0 <= i <= |key|
      invariant hash == Polynomial(key[..i]) % WORD
    {
      StepModulo(Polynomial(key[..i]), SignExtend(key[i]));
      PolynomialAppend(key[..i], key[i]);
      assert key[..i + 1] == key[..i] + [key[i]];
      hash := ((hash * 32) % WORD + hash + SignExtend(key[i])) % WORD;
      i := i + 1;
    }
    assert key[..|key|] == key;
    bucket := hash % tableSize;
  }
}
