/**
 A pad's (vendor, product) packed into one signed 32-bit key, and the decimal slot id made of it.
 */
module PackedKeys {
  import opened Basics

  const WORD := 0x1_0000
  const INT32_MODULUS := 0x1_0000_0000
  const INT32_SIGN := 0x8000_0000

  /** Two's complement: the low 32 bits read as a signed number. */
  function ToInt32(n: int): int {
    var low := n % INT32_MODULUS;
    if low >= INT32_SIGN then low - INT32_MODULUS else low
  }

  /** (vendorId << 16) | (productId & 0xFFFF), as an int. */
  function Pack(vendorId: int, productId: int): int {
    ToInt32(vendorId * WORD + productId % WORD)
  }

  /** (key >> 16) & 0xFFFF, the shift keeping the sign. */
  function VendorOf(key: int): int {
    key / WORD % WORD
  }

  /** key & 0xFFFF. */
  function ProductOf(key: int): int {
    key % WORD
  }

  predicate Is16Bit(n: int) {
    0 <= n < WORD
  }

  /** Unpacking gives back the ids that were packed, also when the key is negative. */
  lemma UnpackPack(vendorId: int, productId: int)
    requires Is16Bit(vendorId) && Is16Bit(productId)
    ensures VendorOf(Pack(vendorId, productId)) == vendorId
    ensures ProductOf(Pack(vendorId, productId)) == productId
    ensures Pack(vendorId, productId) < 0 <==> vendorId >= 0x8000
  {
    var n := vendorId * WORD + productId;
    assert n % INT32_MODULUS == n;
    if n >= INT32_SIGN {
      assert Pack(vendorId, productId) == (vendorId - WORD) * WORD + productId;
    }
  }

  lemma PackIsInjective(v: int, p: int, v': int, p': int)
    requires Is16Bit(v) && Is16Bit(p) && Is16Bit(v') && Is16Bit(p')
    ensures Pack(v, p) == Pack(v', p') <==> v == v' && p == p'
  {
    UnpackPack(v, p);
    UnpackPack(v', p');
  }

  // ----- the decimal slot id of a synthetic slot -----

  function Digit(d: nat): char
    requires d < 10
  {
    "0123456789"[d]
  }

  function Decimal(n: nat): string {
    if n < 10 then [Digit(n)] else Decimal(n / 10) + [Digit(n % 10)]
  }

  /** std::to_string of an int. */
  function ToString(n: int): string {
    if n < 0 then "-" + Decimal(-n) else Decimal(n)
  }

  /** The pair a synthetic slot id stands for; none for any other id. */
  function ParseSyntheticSlotId(id: SlotId): Option<(int, int)> {
    if id == "" || !AllDigits(id) || |id| > 10 then None
    else
      var key := Value(id);
      if key > 0xFFFF_FFFF then None else Some((key / WORD % WORD, key % WORD))
  }

  lemma {:induction false} DecimalIsShort(n: nat, k: nat)
    requires n < Tens(k) && k > 0
    ensures 0 < |Decimal(n)| <= k
    decreases n
  {
    if n >= 10 {
      assert Tens(k) == 10 * Tens(k - 1);
      DecimalIsShort(n / 10, k - 1);
    }
  }

  lemma {:induction false} DecimalReadsBack(n: nat)
    ensures AllDigits(Decimal(n))
    ensures Value(Decimal(n)) == n
    decreases n
  {
    if n >= 10 {
      DecimalReadsBack(n / 10);
      ValueOfOneMore(Decimal(n / 10), n % 10);
    }
  }

  lemma ValueOfOneMore(front: string, d: nat)
    requires d < 10 && AllDigits(front)
    ensures AllDigits(front + [Digit(d)])
    ensures Value(front + [Digit(d)]) == 10 * Value(front) + d
  {
    var all := front + [Digit(d)];
    assert all[..|front|] == front;
  }

  /** A synthetic slot id names its pad again exactly when the vendor id is below 0x8000: from
      there on the packed key is negative and its decimal form does not parse. */
  lemma SyntheticIdRoundTrip(vendorId: int, productId: int)
    requires Is16Bit(vendorId) && Is16Bit(productId)
    ensures ParseSyntheticSlotId(ToString(Pack(vendorId, productId))) ==
            if vendorId < 0x8000 then Some((vendorId, productId)) else None
  {
    UnpackPack(vendorId, productId);
    var key := Pack(vendorId, productId);
    if key < 0 {
      assert ToString(key)[0] == '-';
    } else {
      assert key < 0x8000_0000 <= Tens(10) by { assert Tens(10) == 10_000_000_000; }
      DecimalIsShort(key, 10);
      DecimalReadsBack(key);
    }
  }
}
