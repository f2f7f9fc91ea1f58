/**
 * The keeper gate: a single keeper record holding a hashed passphrase, created once,
 * checked on sign-in, and re-hashed on a passphrase change or an administrative reset.
 */
module Keepers {
  import opened Wrappers
  import opened Tables
  import opened JsText

  const Two31: int := 0x8000_0000
  const Two32: int := 0x1_0000_0000

  /** JavaScript's ToInt32: the signed 32-bit integer congruent to `x` modulo 2^32. */
  function ToInt32(x: int): (r: int)
    ensures -Two31 <= r < Two31
  {
    (x + Two31) % Two32 - Two31
  }

  lemma ToInt32Shift(x: int, k: int)
    ensures ToInt32(x + k * Two32) == ToInt32(x)
  {
    var a := x + Two31;
    assert (a + k * Two32) % Two32 == a % Two32;
  }

  /** A UTF-16 code unit, what `charCodeAt` returns. */
  type CodeUnit = x: int | 0 <= x < 0x1_0000

  /** The UTF-16 encoding of a string: the code units JavaScript's `length` and `charCodeAt` see. */
  function Utf16(s: string): (r: seq<CodeUnit>)
    ensures |r| >= |s|
  {
    if |s| == 0 then []
    else
      var c := s[0] as int;
      var head: seq<CodeUnit> :=
        if c < 0x1_0000 then [c]
        else [0xD800 + (c - 0x1_0000) / 0x400, 0xDC00 + (c - 0x1_0000) % 0x400];
      head + Utf16(s[1..])
  }

  /**
   * The 32-bit wrapping polynomial hash, h := int32(31 * h + unit), from h = 0: the reference
   * definition of what the loop in `simpleHash` computes.
   */
  function PolyHash(units: seq<CodeUnit>): (h: int)
    ensures -Two31 <= h < Two31
  {
    if |units| == 0 then 0
    else ToInt32(31 * PolyHash(units[..|units| - 1]) + units[|units| - 1])
  }

  /**
   * One iteration of the loop as the source writes it: `hash = (hash << 5) - hash + char`
   * (the shift wraps to 32 bits) followed by `hash = hash & hash` (a second ToInt32).
   */
  function ShiftSubtractStep(h: int, unit: CodeUnit): int {
    ToInt32(ToInt32(h * 32) - h + unit)
  }

  /** The shift-and-subtract step is the polynomial step 31 * h + unit, wrapped. */
  lemma ShiftSubtractIsPolynomial(h: int, unit: CodeUnit)
    ensures ShiftSubtractStep(h, unit) == ToInt32(31 * h + unit)
  {
    var k := (h * 32 + Two31) / Two32;
    assert ToInt32(h * 32) == h * 32 - k * Two32;
    ToInt32Shift(31 * h + unit, -k);
  }

  function Abs(x: int): nat {
    if x < 0 then -x else x
  }

  const DigestPrefix: string := "aetheria_"

  /** The stored form of a passphrase: 'aetheria_' + base36(|h|) + '_' + length. */
  function HashDigest(passphrase: string): (d: string)
    ensures StartsWith(d, DigestPrefix)
    ensures EndsWith(d, "_" + Decimal(|Utf16(passphrase)|))
  {
    var units := Utf16(passphrase);
    var d := DigestPrefix + NatToString(Abs(PolyHash(units)), 36) + "_" + Decimal(|units|);
    assert d[..|DigestPrefix|] == DigestPrefix;
    assert d[|d| - |"_" + Decimal(|units|)|..] == "_" + Decimal(|units|);
    d
  }

  /** `simpleHash`: the loop over the passphrase's code units, then the rendering. */
  method SimpleHash(passphrase: string) returns (digest: string)
    ensures digest == HashDigest(passphrase)
  {
    var units := Utf16(passphrase);
    var hash := 0;
    for i := 0 to |units|
      invariant hash == PolyHash(units[..i])
    {
      ShiftSubtractIsPolynomial(hash, units[i]);
      assert units[..i + 1][..i] == units[..i];
      hash := ShiftSubtractStep(hash, units[i]);
    }
    assert units[..|units|] == units;
    digest := DigestPrefix + NatToString(Abs(hash), 36) + "_" + Decimal(|units|);
  }

  lemma {:induction false} NoUnderscoreInDigits(n: nat, radix: nat)
    requires 2 <= radix <= 36
    ensures '_' !in NatToString(n, radix)
  {
    if n >= radix {
      DivStep(n, radix);
      NoUnderscoreInDigits(n / radix, radix);
    }
  }

  /** The number of characters after the last '_' of a string. */
  function TrailingRun(x: string): nat {
    if |x| == 0 || x[|x| - 1] == '_' then 0 else 1 + TrailingRun(x[..|x| - 1])
  }

  lemma {:induction false} TrailingRunAfterSeparator(a: string, d: string)
    requires '_' !in d
    ensures TrailingRun(a + "_" + d) == |d|
  {
    if |d| > 0 {
      var x := a + "_" + d;
      assert x[..|x| - 1] == a + "_" + d[..|d| - 1];
      assert d[|d| - 1] in d;
      TrailingRunAfterSeparator(a, d[..|d| - 1]);
    }
  }

  lemma SameTailAfterLastSeparator(a: string, b: string, d1: string, d2: string)
    requires '_' !in d1 && '_' !in d2
    requires a + "_" + d1 == b + "_" + d2
    ensures d1 == d2
  {
    TrailingRunAfterSeparator(a, d1);
    TrailingRunAfterSeparator(b, d2);
    var s := a + "_" + d1;
    assert d1 == s[|s| - |d1|..];
  }

  /** Passphrases of different UTF-16 lengths never share a digest. */
  lemma DigestRecordsLength(p: string, q: string)
    requires HashDigest(p) == HashDigest(q)
    ensures |Utf16(p)| == |Utf16(q)|
  {
    var up, uq := Utf16(p), Utf16(q);
    NoUnderscoreInDigits(|up|, 10);
    NoUnderscoreInDigits(|uq|, 10);
    SameTailAfterLastSeparator(DigestPrefix + NatToString(Abs(PolyHash(up)), 36),
      DigestPrefix + NatToString(Abs(PolyHash(uq)), 36), Decimal(|up|), Decimal(|uq|));
    NatToStringInjective(|up|, |uq|, 10);
  }

  datatype Keeper = Keeper(id: nat, name: string, passphraseHash: string, createdAt: int, lastAccess: Option<int>)

  function KeeperId(k: Keeper): nat { k.id }

  /** The public part of a keeper that `verifyKeeper` hands back. */
  datatype KeeperRef = KeeperRef(name: string, id: nat)

  datatype Verification = Verification(valid: bool, message: Option<string>, keeper: Option<KeeperRef>)

  const NoKeeperMessage: string := "No keeper has been anointed"

  /**
   * `verifyKeeper` against the first keeper record: with none, invalid with a message;
   * otherwise valid exactly when the stored hash is the digest of the passphrase, and the
   * keeper is disclosed only when valid.
   */
  function VerifyKeeper(keepers: seq<Keeper>, passphrase: string): (v: Verification)
    ensures |keepers| == 0 ==> v == Verification(false, Some(NoKeeperMessage), None)
    ensures |keepers| > 0 ==> (v.valid <==> keepers[0].passphraseHash == HashDigest(passphrase))
    ensures v.keeper.Some? <==> v.valid
    ensures v.keeper.Some? ==> v.keeper.value == KeeperRef(keepers[0].name, keepers[0].id)
  {
    if |keepers| == 0 then Verification(false, Some(NoKeeperMessage), None)
    else
      var isValid := keepers[0].passphraseHash == HashDigest(passphrase);
      Verification(isValid, None, if isValid then Some(KeeperRef(keepers[0].name, keepers[0].id)) else None)
  }

  /** `isSanctumInitialized`: some keeper record exists. */
  function IsSanctumInitialized(keepers: seq<Keeper>): (initialized: bool)
    ensures initialized <==> keepers != []
  {
    |keepers| > 0
  }

  /** The `keepers` table. */
  class KeeperTable {
    var keepers: seq<Keeper>
    var nextId: nat

    ghost predicate Valid()
      reads this
    {
      |keepers| <= 1 && IdsBelow(keepers, KeeperId, nextId)
    }

    constructor ()
      ensures Valid() && keepers == []
    {
      keepers := [];
      nextId := 0;
    }

    /** `initializeKeeper`: the one-time setup; refused once any keeper exists. */
    method InitializeKeeper(name: string, passphrase: string, now: int) returns (r: Result<nat>)
      requires Valid()
      modifies this
      ensures Valid()
      ensures old(keepers) != [] ==> r == Err("A keeper already watches over this sanctum") && keepers == old(keepers)
      ensures old(keepers) == [] ==> r.Ok? && keepers == [Keeper(r.value, name, HashDigest(passphrase), now, None)]
      ensures r.Ok? ==> VerifyKeeper(keepers, passphrase).valid
    {
      if |keepers| > 0 {
        return Err("A keeper already watches over this sanctum");
      }
      var digest := SimpleHash(passphrase);
      keepers := [Keeper(nextId, name, digest, now, None)];
      r := Ok(nextId);
      nextId := nextId + 1;
    }

    /** `recordAccess`: stamps the keeper's last access; patching a missing record throws. */
    method RecordAccess(keeperId: nat, now: int) returns (r: Outcome)
      requires Valid()
      modifies this`keepers
      ensures Valid()
      ensures var i := FirstIndex(old(keepers), (k: Keeper) => k.id == keeperId);
        if i.None? then r.Failed? && keepers == old(keepers)
        else r == Done && keepers == old(keepers)[i.value := old(keepers)[i.value].(lastAccess := Some(now))]
    {
      var i := FirstIndex(keepers, (k: Keeper) => k.id == keeperId);
      if i.None? {
        return Failed(MissingDocument);
      }
      keepers := keepers[i.value := keepers[i.value].(lastAccess := Some(now))];
      r := Done;
    }

    /**
     * `updatePassphrase`: looks the keeper up by id, refuses a wrong current passphrase,
     * and otherwise stores the digest of the new one, which then verifies.
     */
    method UpdatePassphrase(keeperId: nat, currentPassphrase: string, newPassphrase: string) returns (r: Outcome)
      requires Valid()
      modifies this`keepers
      ensures Valid()
      ensures var i := FirstIndex(old(keepers), (k: Keeper) => k.id == keeperId);
        if i.None? then r == Failed("Keeper not found") && keepers == old(keepers)
        else if old(keepers)[i.value].passphraseHash != HashDigest(currentPassphrase) then
          r == Failed("Current passphrase is incorrect") && keepers == old(keepers)
        else
          r == Done && keepers == old(keepers)[i.value := old(keepers)[i.value].(passphraseHash := HashDigest(newPassphrase))]
      ensures r == Done ==> VerifyKeeper(keepers, newPassphrase).valid
    {
      var i := FirstIndex(keepers, (k: Keeper) => k.id == keeperId);
      if i.None? {
        return Failed("Keeper not found");
      }
      var currentDigest := SimpleHash(currentPassphrase);
      if keepers[i.value].passphraseHash != currentDigest {
        return Failed("Current passphrase is incorrect");
      }
      var newDigest := SimpleHash(newPassphrase);
      keepers := keepers[i.value := keepers[i.value].(passphraseHash := newDigest)];
      r := Done;
    }

    /** `adminResetPassphrase`: re-hashes the first keeper's passphrase without checking the old one. */
    method AdminResetPassphrase(newPassphrase: string) returns (r: Result<bool>)
      requires Valid()
      modifies this`keepers
      ensures Valid()
      ensures old(keepers) == [] ==> r == Err("No keeper found") && keepers == []
      ensures old(keepers) != [] ==> (r == Ok(true)
        && keepers == old(keepers)[0 := old(keepers)[0].(passphraseHash := HashDigest(newPassphrase))])
      ensures r.Ok? ==> VerifyKeeper(keepers, newPassphrase).valid
    {
      if |keepers| == 0 {
        return Err("No keeper found");
      }
      var digest := SimpleHash(newPassphrase);
      keepers := keepers[0 := keepers[0].(passphraseHash := digest)];
      r := Ok(true);
    }
  }
}
