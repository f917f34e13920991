/** Byte-string keys: their order, prefixes, prefix ranges and big-endian numbers. */
module Keys {
  import opened Prelude

  /** Lexicographic order. */
  predicate Less(a: Bytes, b: Bytes) {
    b != [] && (a == [] || a[0] < b[0] || (a[0] == b[0] && Less(a[1..], b[1..])))
  }

  lemma {:induction false} LessIsStrict(a: Bytes, b: Bytes)
    ensures !(Less(a, b) && Less(b, a)) && !Less(a, a)
  {
    if a != [] && b != [] { LessIsStrict(a[1..], b[1..]); }
    if a != [] { LessIsStrict(a[1..], a[1..]); }
  }

  lemma {:induction false} LessIsTotal(a: Bytes, b: Bytes)
    ensures Less(a, b) || Less(b, a) || a == b
  {
    if a != [] && b != [] {
      LessIsTotal(a[1..], b[1..]);
      assert a == [a[0]] + a[1..] && b == [b[0]] + b[1..];
    }
  }

  lemma {:induction false} LessIsTransitive(a: Bytes, b: Bytes, c: Bytes)
    requires Less(a, b) && Less(b, c)
    ensures Less(a, c)
  {
    if a != [] && a[0] == b[0] == c[0] { LessIsTransitive(a[1..], b[1..], c[1..]); }
  }

  /** A common prefix does not matter. */
  lemma {:induction false} LessBehindPrefix(p: Bytes, a: Bytes, b: Bytes)
    ensures Less(p + a, p + b) <==> Less(a, b)
  {
    if p == [] {
      assert p + a == a && p + b == b;
    } else {
      LessBehindPrefix(p[1..], a, b);
      assert (p + a)[1..] == p[1..] + a && (p + b)[1..] == p[1..] + b;
    }
  }

  /*** Prefixes ***/

  /** `key` under `prefix`, with a zero byte between them. */
  function PrefixKey(prefix: Bytes, key: Bytes): Bytes { prefix + [0] + key }

  predicate HasPrefix(key: Bytes, prefix: Bytes) {
    prefix != [] && prefix + [0] <= key
  }

  function UnprefixKey(key: Bytes, prefix: Bytes): Bytes
    requires HasPrefix(key, prefix)
  {
    key[|prefix| + 1..]
  }

  /** Where the keys that start with `prefix` end: the first key above them all, or nothing. */
  function PrefixEnd(prefix: Bytes): Option<Bytes> {
    if prefix == [] then None
    else
      var init, last := prefix[..|prefix| - 1], prefix[|prefix| - 1];
      if last != 255 then Some(init + [last + 1]) else PrefixEnd(init)
  }

  /** The same, found by trimming and incrementing a copy of the prefix. Nil has no end. */
  method PrefixRangeEnd(prefix: Option<Bytes>) returns (end: Option<Bytes>)
    requires prefix.Some? ==> prefix.value != []
    ensures prefix.None? ==> end == None
    ensures prefix.Some? ==> end == PrefixEnd(prefix.value)
  {
    if prefix.None? {
      return None;
    }
    var buf := prefix.value;
    while true
      invariant buf != [] && PrefixEnd(buf) == PrefixEnd(prefix.value)
      decreases |buf|
    {
      if buf[|buf| - 1] != 255 {
        end := Some(buf[|buf| - 1 := buf[|buf| - 1] + 1]);
        assert end.value == buf[..|buf| - 1] + [buf[|buf| - 1] + 1];
        return;
      } else if |buf| == 1 {
        return None;
      }
      buf := buf[..|buf| - 1];
    }
  }

  /** `key` lies in the half-open range from `start` to `end`. */
  predicate InRange(key: Bytes, start: Bytes, end: Option<Bytes>) {
    !Less(key, start) && (end.Some? ==> Less(key, end.value))
  }

  lemma {:induction false} LastByteRange(init: Bytes, c: byte, key: Bytes)
    requires c < 255
    ensures init + [c] <= key <==> InRange(key, init + [c], Some(init + [c + 1]))
  {
    if init == [] {
      var d: byte := c + 1;
      assert init + [c] == [c] && init + [d] == [d] && [c][1..] == [] && [d][1..] == [];
      assert [c] <= key <==> key != [] && key[0] == c;
      assert Less(key, [c]) <==> key == [] || key[0] < c;
      assert Less(key, [d]) <==> key == [] || key[0] < d;
    } else if key != [] && key[0] == init[0] {
      LastByteRange(init[1..], c, key[1..]);
      assert (init + [c])[1..] == init[1..] + [c] && (init + [c + 1])[1..] == init[1..] + [c + 1];
      assert init + [c] <= key <==> init[1..] + [c] <= key[1..];
    }
  }

  lemma {:induction false} TopByteRange(init: Bytes, key: Bytes)
    ensures init + [255] <= key <==> init <= key && !Less(key, init + [255])
  {
    if init == [] {
      assert init + [255] == [255];
      assert key != [] && key[0] == 255 ==> [255] <= key;
    } else if key != [] && key[0] == init[0] {
      TopByteRange(init[1..], key[1..]);
      assert (init + [255])[1..] == init[1..] + [255];
      assert init + [255] <= key <==> init[1..] + [255] <= key[1..];
      assert init <= key <==> init[1..] <= key[1..];
    }
  }

  /** The range of a prefix holds exactly the keys that start with it. */
  lemma {:induction false} PrefixRangeIsExact(prefix: Bytes, key: Bytes)
    ensures prefix <= key <==> InRange(key, prefix, PrefixEnd(prefix))
  {
    if prefix != [] {
      var init, last := prefix[..|prefix| - 1], prefix[|prefix| - 1];
      assert prefix == init + [last];
      if last != 255 {
        LastByteRange(init, last, key);
      } else {
        TopByteRange(init, key);
        PrefixRangeIsExact(init, key);
        ExtensionIsAbove(init, [255]);
        if !Less(key, prefix) && Less(key, init) {
          LessIsTransitive(key, init, prefix);
        }
      }
    }
  }

  lemma {:induction false} ExtensionIsAbove(p: Bytes, q: Bytes)
    requires q != []
    ensures Less(p, p + q)
  {
    LessBehindPrefix(p, [], q);
    assert p + [] == p;
  }

  /*** Big-endian numbers ***/

  function Pow256(w: nat): nat { if w == 0 then 1 else 256 * Pow256(w - 1) }

  const MAX_UINT64: nat := 0xFFFF_FFFF_FFFF_FFFF

  type uint64 = n: nat | n <= MAX_UINT64

  function BigEndian(n: nat, w: nat): (b: Bytes)
    ensures |b| == w
  {
    if w == 0 then [] else BigEndian(n / 256, w - 1) + [n % 256]
  }

  function FromBigEndian(b: Bytes): nat {
    if b == [] then 0 else FromBigEndian(b[..|b| - 1]) * 256 + b[|b| - 1]
  }

  lemma {:induction false} BigEndianRoundTrip(n: nat, w: nat)
    requires n < Pow256(w)
    ensures FromBigEndian(BigEndian(n, w)) == n
  {
    if w > 0 {
      BigEndianRoundTrip(n / 256, w - 1);
      assert BigEndian(n, w)[..w - 1] == BigEndian(n / 256, w - 1);
    }
  }

  lemma Pow256Values()
    ensures Pow256(8) == MAX_UINT64 + 1 && Pow256(2) == 0x1_0000
  {
    assert Pow256(4) == 0x1_0000_0000;
  }

  /** Numbers of one width are ordered like their encodings, whatever follows them. */
  lemma {:induction false} BigEndianOrders(m: nat, n: nat, w: nat, x: Bytes, y: Bytes)
    requires m < n < Pow256(w)
    ensures Less(BigEndian(m, w) + x, BigEndian(n, w) + y)
  {
    if w > 0 {
      var a, b := BigEndian(m / 256, w - 1), BigEndian(n / 256, w - 1);
      assert BigEndian(m, w) + x == a + ([m % 256] + x);
      assert BigEndian(n, w) + y == b + ([n % 256] + y);
      if m / 256 < n / 256 {
        BigEndianOrders(m / 256, n / 256, w - 1, [m % 256] + x, [n % 256] + y);
      } else {
        LessBehindPrefix(a, [m % 256] + x, [n % 256] + y);
      }
    }
  }
}
