/** crypto/did.py: multibase strings and did:key identifiers of Ed25519 public keys. */
module DidKey {
  import opened Digits
  import opened Base58

  const ED25519_MULTICODEC_PREFIX: Bytes := [0xed, 0x01]
  const MULTIBASE_BASE58BTC := 'z'
  const DID_KEY_PREFIX := "did:key:"
  const ED25519_PUBLIC_KEY_LEN := 32

  function MultibaseEncode(data: Bytes): string {
    [MULTIBASE_BASE58BTC] + Encoded(data)
  }

  function MultibaseDecode(text: string): Result<Bytes> {
    if text == "" || text[0] != MULTIBASE_BASE58BTC then Err(NotBase58btc) else Decoded(text[1..])
  }

  /** `public_key_to_did_key`, from the decoded key bytes. */
  function PublicKeyToDidKey(key: Bytes): Result<string> {
    if |key| != ED25519_PUBLIC_KEY_LEN then Err(WrongLength(|key|))
    else Ok(DID_KEY_PREFIX + MultibaseEncode(ED25519_MULTICODEC_PREFIX + key))
  }

  /** `did_key_to_public_key`. */
  function DidKeyToPublicKey(did: string): Result<Bytes> {
    if !(DID_KEY_PREFIX <= did) then Err(NotDidKey)
    else
      var payload := MultibaseDecode(did[|DID_KEY_PREFIX|..]);
      if payload.Err? then Err(payload.error)
      else if !(ED25519_MULTICODEC_PREFIX <= payload.value) then Err(NotEd25519)
      else
        var key := payload.value[|ED25519_MULTICODEC_PREFIX|..];
        if |key| != ED25519_PUBLIC_KEY_LEN then Err(WrongLength(|key|)) else Ok(key)
  }

  /** The key is the whole identifier: every 32-byte key comes back from its did:key. */
  lemma KeyRoundTrip(key: Bytes)
    requires AreBytes(key) && |key| == ED25519_PUBLIC_KEY_LEN
    ensures PublicKeyToDidKey(key).Ok?
    ensures DidKeyToPublicKey(PublicKeyToDidKey(key).value) == Ok(key)
  {
    var payload := ED25519_MULTICODEC_PREFIX + key;
    var did := PublicKeyToDidKey(key).value;
    DecodeEncode(payload);
    assert did[|DID_KEY_PREFIX|..] == MultibaseEncode(payload);
    assert MultibaseEncode(payload)[1..] == Encoded(payload);
    assert payload[2..] == key;
  }

  /** A string is accepted exactly when it is the did:key of some 32-byte key, and that key is what comes out. */
  lemma DidRoundTrip(did: string)
    ensures DidKeyToPublicKey(did).Ok? ==>
      var key := DidKeyToPublicKey(did).value;
      AreBytes(key) && PublicKeyToDidKey(key) == Ok(did)
    ensures DidKeyToPublicKey(did).Ok? <==> exists key :: AreBytes(key) && PublicKeyToDidKey(key) == Ok(did)
  {
    if DidKeyToPublicKey(did).Ok? {
      var key := DidKeyToPublicKey(did).value;
      var text := did[|DID_KEY_PREFIX|..];
      EncodeDecode(text[1..]);
      var payload := Decoded(text[1..]).value;
      assert payload == ED25519_MULTICODEC_PREFIX + key;
      assert text == [MULTIBASE_BASE58BTC] + text[1..];
      assert did == DID_KEY_PREFIX + text;
      assert AreBytes(key) by {
        assert forall i | 0 <= i < |key| :: key[i] == payload[i + 2];
      }
    }
    if exists key :: AreBytes(key) && PublicKeyToDidKey(key) == Ok(did) {
      var key :| AreBytes(key) && PublicKeyToDidKey(key) == Ok(did);
      KeyRoundTrip(key);
    }
  }

  /** Different keys have different identifiers. */
  lemma DidsAreDistinct(a: Bytes, b: Bytes)
    requires AreBytes(a) && |a| == ED25519_PUBLIC_KEY_LEN && AreBytes(b) && |b| == ED25519_PUBLIC_KEY_LEN
    requires PublicKeyToDidKey(a) == PublicKeyToDidKey(b)
    ensures a == b
  {
    KeyRoundTrip(a);
    KeyRoundTrip(b);
  }

  // ---- every Ed25519 identifier starts alike ------------------------------------------------------

  function Power(b: nat, m: nat): nat {
    if m == 0 then 1 else b * Power(b, m - 1)
  }

  /** Digits in front of others count as many times as there are numbers below those. */
  lemma {:induction false} FrontCounts(b: Base, front: seq<nat>, ds: seq<nat>)
    requires ValidDigits(b, ds)
    ensures FromDigits(b, front) * Power(b, |ds|) <= FromDigits(b, front + ds)
    ensures FromDigits(b, front + ds) < (FromDigits(b, front) + 1) * Power(b, |ds|)
    decreases |ds|
  {
    var all := front + ds;
    if ds == [] {
      assert all == front;
    } else {
      var n := |ds| - 1;
      FrontCounts(b, front, ds[..n]);
      assert all[..|all| - 1] == front + ds[..n] && all[|all| - 1] == ds[n];
      OneDigitMore(b, FromDigits(b, front), Power(b, n), FromDigits(b, front + ds[..n]), ds[n]);
    }
  }

  lemma Scale(x: nat, y: nat, b: nat)
    requires x <= y
    ensures x * b <= y * b
  {
  }

  lemma Regroup(x: nat, b: nat, p: nat)
    ensures x * (b * p) == (x * p) * b
  {
  }

  lemma OneDigitMore(b: Base, x: nat, p: nat, y: nat, d: nat)
    requires x * p <= y < (x + 1) * p && d < b
    ensures x * (b * p) <= y * b + d < (x + 1) * (b * p)
  {
    Regroup(x, b, p);
    Regroup(x + 1, b, p);
    Scale(x * p, y, b);
    Scale(y + 1, (x + 1) * p, b);
    assert (y + 1) * b == y * b + b;
  }

  /** A number between lo and lo + 1 times a power of the base starts with the digits of lo. */
  lemma {:induction false} StartsWith(b: Base, lo: nat, m: nat, x: nat)
    requires lo > 0 && lo * Power(b, m) <= x < (lo + 1) * Power(b, m)
    ensures ToDigits(b, lo) <= ToDigits(b, x)
    decreases m
  {
    if m > 0 {
      WithoutLast(b, lo, m, x);
      StartsWith(b, lo, m - 1, x / b);
      hide Power;
    } else {
      assert x == lo;
    }
  }

  lemma WithoutLast(b: Base, lo: nat, m: nat, x: nat)
    requires m > 0 && lo > 0 && lo * Power(b, m) <= x < (lo + 1) * Power(b, m)
    ensures x > 0 && lo * Power(b, m - 1) <= x / b < (lo + 1) * Power(b, m - 1)
  {
    Divide(b, x);
    OneDigitLess(b, lo, Power(b, m - 1), x / b, x % b);
    Positive(lo, Power(b, m), x);
  }

  lemma Positive(x: nat, y: nat, z: nat)
    requires x > 0 && x * y <= z < (x + 1) * y
    ensures z > 0
  {
    if y > 0 {
      Scale(1, x, y);
    }
  }

  lemma OneDigitLess(b: Base, lo: nat, p: nat, q: nat, r: nat)
    requires r < b && lo * (b * p) <= q * b + r < (lo + 1) * (b * p)
    ensures lo * p <= q < (lo + 1) * p
  {
    Regroup(lo, b, p);
    Regroup(lo + 1, b, p);
    if q < lo * p {
      Scale(q + 1, lo * p, b);
      assert false;
    }
    if q >= (lo + 1) * p {
      Scale((lo + 1) * p, q, b);
      assert false;
    }
  }

  lemma Powers()
    ensures Power(58, 44) == 389790918707373377135528568990913592653094657612049369038476873218241589149696
    ensures Power(256, 32) == 0x1_0000_0000_0000_0000_0000_0000_0000_0000_0000_0000_0000_0000_0000_0000_0000_0000
  {
    PowerAdds(58, 22, 22);
    PowerAdds(58, 11, 11);
    PowerAdds(256, 16, 16);
    PowerAdds(256, 8, 8);
    assert Power(58, 11) == 24986644000165537792;
    assert Power(256, 8) == 0x1_0000_0000_0000_0000;
  }

  lemma {:induction false} PowerAdds(b: nat, m: nat, n: nat)
    ensures Power(b, m + n) == Power(b, m) * Power(b, n)
  {
    if m > 0 {
      PowerAdds(b, m - 1, n);
      assert b * (Power(b, m - 1) * Power(b, n)) == (b * Power(b, m - 1)) * Power(b, n);
    }
  }

  lemma PayloadNumber(key: Bytes)
    requires AreBytes(key) && |key| == 32
    ensures 18023 * Power(58, 44) <= FromDigits(256, [0xed, 0x01] + key) < 18024 * Power(58, 44)
  {
    Powers();
    assert FromDigits(256, [0xed, 0x01]) == 0xed01 by {
      assert [0xed, 0x01][..1] == [0xed] && [0xed][..0] == [];
    }
    FrontCounts(256, [0xed, 0x01], key);
    hide Power, FromDigits;
  }

  /** Whatever the key, its identifier starts with did:key:z6Mk. */
  lemma KeyPrefix(key: Bytes)
    requires AreBytes(key) && |key| == 32
    ensures PublicKeyToDidKey(key).Ok? && "did:key:z6Mk" <= PublicKeyToDidKey(key).value
  {
    var payload: Bytes := [0xed, 0x01] + key;
    var x := FromDigits(256, payload);
    PayloadNumber(key);
    hide Power, FromDigits;
    StartsWith(58, 18023, 44, x);
    FirstThree();
    assert LeadingZeros(payload) == 0;
    RecodeValid(256, 58, payload);
    hide ToDigits, LeadingZeros;
    var ds := Recode(256, 58, payload);
    assert ds == ToDigits(58, x);
    assert ds[0] == 5 && ds[1] == 20 && ds[2] == 43;
    var text := Chars(ds);
    assert text[..3] == "6Mk";
    assert PublicKeyToDidKey(key).value == "did:key:" + ("z" + text);
  }

  lemma FirstThree()
    ensures ToDigits(58, 18023) == [5, 20, 43]
  {
    assert ToDigits(58, 5) == [5] by { assert ToDigits(58, 0) == []; }
    assert ToDigits(58, 310) == [5, 20];
  }
}
