/** What the patch leaves behind, key by key, when the named storage prefixes do not collide. */
module CloneTheorems {
  import opened Wrappers
  import opened RawSpec
  import opened ClonePatch

  const HASH_LENGTH := 32

  const PALLETS := ["Aura", "Grandpa", "Sudo", "Session", "SubtensorModule", "System"]
  const GRANDPA_ITEMS := ["Authorities", "CurrentSetId", "State", "PendingChange", "NextForced", "Stalled", "SetIdSession"]

  ghost predicate Apart(enc: Encoding, names: seq<string>) {
    (forall i :: 0 <= i < |names| ==> |enc.hash(names[i])| == HASH_LENGTH) &&
    (forall i, j :: 0 <= i < j < |names| ==> enc.hash(names[i]) != enc.hash(names[j]))
  }

  /** The storage hash keeps the named pallets apart and the named Grandpa items apart, all hashes
      have the same length, and the short well-known key is not under the Session prefix. */
  ghost predicate NoCollision(enc: Encoding) {
    Apart(enc, PALLETS) && Apart(enc, GRANDPA_ITEMS) &&
    |enc.hash("Key")| == HASH_LENGTH && |enc.hash("Account")| == HASH_LENGTH &&
    |enc.hash("LastEpochBlock")| == HASH_LENGTH && |enc.hash("PendingEpochAt")| == HASH_LENGTH &&
    |enc.wellKnown| < 2 + 2 * HASH_LENGTH && !(Prefix(enc, "Session") <= enc.wellKnown)
  }

  /** The pallet part of a storage key. */
  function PalletPart(key: string): string {
    if |key| < 2 + HASH_LENGTH then "" else key[2..2 + HASH_LENGTH]
  }

  function ItemPart(key: string): string {
    if |key| < 2 + 2 * HASH_LENGTH then "" else key[2 + HASH_LENGTH..2 + 2 * HASH_LENGTH]
  }

  lemma KeyParts(enc: Encoding, pallet: string, item: string, key: string)
    requires |enc.hash(pallet)| == HASH_LENGTH && |enc.hash(item)| == HASH_LENGTH && Key(enc, pallet, item) <= key
    ensures |key| >= 2 + 2 * HASH_LENGTH
    ensures PalletPart(key) == enc.hash(pallet) && ItemPart(key) == enc.hash(item)
  {
    var k := Key(enc, pallet, item);
    assert key[..|k|] == k;
    assert key[2..2 + HASH_LENGTH] == k[2..2 + HASH_LENGTH];
    assert key[2 + HASH_LENGTH..2 + 2 * HASH_LENGTH] == k[2 + HASH_LENGTH..2 + 2 * HASH_LENGTH];
  }

  lemma PrefixPart(enc: Encoding, pallet: string, key: string)
    requires |enc.hash(pallet)| == HASH_LENGTH && Prefix(enc, pallet) <= key
    ensures |key| >= 2 + HASH_LENGTH && PalletPart(key) == enc.hash(pallet)
  {
    var p := Prefix(enc, pallet);
    assert key[..|p|] == p;
    assert key[2..2 + HASH_LENGTH] == p[2..2 + HASH_LENGTH];
  }

  // ----- The fate of one key -------------------------------------------------------------

  ghost predicate IsAccount(enc: Encoding, validators: seq<string>, key: string) {
    exists i :: 0 <= i < |validators| && key == AccountKey(enc, validators[i])
  }

  /** The keys that the patch removes: three entries and everything under four prefixes. */
  predicate IsRemoved(enc: Encoding, key: string) {
    key == Key(enc, "Grandpa", "PendingChange") || key == Key(enc, "Grandpa", "NextForced") ||
    key == Key(enc, "Grandpa", "Stalled") || Key(enc, "Grandpa", "SetIdSession") <= key ||
    Prefix(enc, "Session") <= key || Key(enc, "SubtensorModule", "LastEpochBlock") <= key ||
    Key(enc, "SubtensorModule", "PendingEpochAt") <= key
  }

  /** What the patch is meant to do with a key. */
  ghost function Intended(enc: Encoding, validators: seq<string>, key: string): Fate
    requires validators != []
  {
    if IsAccount(enc, validators, key) then Set(enc.funded)
    else if key == Key(enc, "Sudo", "Key") then Set(enc.sudo(validators[0]))
    else if IsRemoved(enc, key) then Gone
    else if key == Key(enc, "Grandpa", "State") then Set("0x00")
    else if key == Key(enc, "Grandpa", "CurrentSetId") then Set(enc.zero)
    else if key == enc.wellKnown then Set(enc.versioned(validators))
    else if key == Key(enc, "Grandpa", "Authorities") then Set(enc.grandpa(validators))
    else if key == Key(enc, "Aura", "Authorities") then Set(enc.aura(validators))
    else Kept
  }

  lemma FateSnoc(ops: seq<Op>, op: Op, key: string)
    ensures FateOf(ops + [op], key) ==
            if !Touches(op, key) then FateOf(ops, key) else if op.Put? then Set(op.value) else Gone
  {
    assert (ops + [op])[..|ops|] == ops;
  }

  lemma Fate4(a: Op, b: Op, c: Op, d: Op, key: string)
    ensures FateOf([a, b, c, d], key) ==
            if Touches(d, key) then (if d.Put? then Set(d.value) else Gone)
            else if Touches(c, key) then (if c.Put? then Set(c.value) else Gone)
            else if Touches(b, key) then (if b.Put? then Set(b.value) else Gone)
            else if Touches(a, key) then (if a.Put? then Set(a.value) else Gone)
            else Kept
  {
    assert [a, b, c, d] == [] + [a] + [b] + [c] + [d];
    FateSnoc([], a, key);
    FateSnoc([] + [a], b, key);
    FateSnoc([] + [a] + [b], c, key);
    FateSnoc([] + [a] + [b] + [c], d, key);
  }

  lemma {:induction false} BalancesFate(ops: seq<Op>, value: string, key: string)
    requires forall i :: 0 <= i < |ops| ==> ops[i].Put? && ops[i].value == value
    ensures FateOf(ops, key) == if exists i :: 0 <= i < |ops| && ops[i].key == key then Set(value) else Kept
  {
    if ops != [] {
      BalancesFate(ops[..|ops| - 1], value, key);
    }
  }

  /** The operations in their order do exactly this, even where prefixes collide: the accounts win
      over the owner's group, that over the removals, those over the authorities. */
  lemma PatchInOrder(enc: Encoding, validators: seq<string>, key: string)
    requires validators != []
    ensures FateOf(Patch(enc, validators), key) ==
            if IsAccount(enc, validators, key) then Set(enc.funded)
            else if !FateOf(Owner(enc, validators[0]), key).Kept? then FateOf(Owner(enc, validators[0]), key)
            else if !FateOf(Cleared(enc), key).Kept? then FateOf(Cleared(enc), key)
            else FateOf(Authorities(enc, validators), key)
  {
    var (a, b, c, d) := (Authorities(enc, validators), Cleared(enc), Owner(enc, validators[0]), Balances(enc, validators));
    FateConcat(a, b, key);
    FateConcat(a + b, c, key);
    FateConcat(a + b + c, d, key);
    BalancesFate(d, enc.funded, key);
    assert (exists i :: 0 <= i < |d| && d[i].key == key) <==> IsAccount(enc, validators, key);
  }

  lemma Fate5(a: Op, b: Op, c: Op, d: Op, e: Op, key: string)
    requires a.Put? && b.Put? && c.Put? && d.Put? && e.Put?
    ensures FateOf([a, b, c, d, e], key) ==
            if e.key == key then Set(e.value) else if d.key == key then Set(d.value) else if c.key == key then Set(c.value)
            else if b.key == key then Set(b.value) else if a.key == key then Set(a.value) else Kept
  {
    assert [a, b, c, d, e] == [a, b, c, d] + [e];
    FateSnoc([a, b, c, d], e, key);
    Fate4(a, b, c, d, key);
  }

  lemma OwnerFate(enc: Encoding, sudo: string, key: string)
    ensures FateOf(Owner(enc, sudo), key) ==
            if Prefix(enc, "Session") <= key || Key(enc, "SubtensorModule", "LastEpochBlock") <= key ||
               Key(enc, "SubtensorModule", "PendingEpochAt") <= key then Gone
            else if key == Key(enc, "Sudo", "Key") then Set(enc.sudo(sudo))
            else Kept
  {
    Fate4(Put(Key(enc, "Sudo", "Key"), enc.sudo(sudo)), DropPrefix(Prefix(enc, "Session")),
          DropPrefix(Key(enc, "SubtensorModule", "LastEpochBlock")), DropPrefix(Key(enc, "SubtensorModule", "PendingEpochAt")), key);
  }

  lemma ClearedFate(enc: Encoding, key: string)
    ensures FateOf(Cleared(enc), key) ==
            if key == Key(enc, "Grandpa", "PendingChange") || key == Key(enc, "Grandpa", "NextForced") ||
               key == Key(enc, "Grandpa", "Stalled") || Key(enc, "Grandpa", "SetIdSession") <= key then Gone
            else Kept
  {
    Fate4(Drop(Key(enc, "Grandpa", "PendingChange")), Drop(Key(enc, "Grandpa", "NextForced")),
          Drop(Key(enc, "Grandpa", "Stalled")), DropPrefix(Key(enc, "Grandpa", "SetIdSession")), key);
  }

  lemma AuthoritiesFate(enc: Encoding, validators: seq<string>, key: string)
    ensures FateOf(Authorities(enc, validators), key) ==
            if key == Key(enc, "Grandpa", "State") then Set("0x00")
            else if key == Key(enc, "Grandpa", "CurrentSetId") then Set(enc.zero)
            else if key == enc.wellKnown then Set(enc.versioned(validators))
            else if key == Key(enc, "Grandpa", "Authorities") then Set(enc.grandpa(validators))
            else if key == Key(enc, "Aura", "Authorities") then Set(enc.aura(validators))
            else Kept
  {
    Fate5(Put(Key(enc, "Aura", "Authorities"), enc.aura(validators)),
          Put(Key(enc, "Grandpa", "Authorities"), enc.grandpa(validators)),
          Put(enc.wellKnown, enc.versioned(validators)),
          Put(Key(enc, "Grandpa", "CurrentSetId"), enc.zero),
          Put(Key(enc, "Grandpa", "State"), "0x00"), key);
  }

  /** The named pallets, apart, as inequalities. */
  lemma PalletsApart(enc: Encoding)
    requires NoCollision(enc)
    ensures forall p, q :: p in PALLETS && q in PALLETS && p != q ==> enc.hash(p) != enc.hash(q)
    ensures forall p, q :: p in GRANDPA_ITEMS && q in GRANDPA_ITEMS && p != q ==> enc.hash(p) != enc.hash(q)
  {
    forall p, q | p in PALLETS && q in PALLETS && p != q
      ensures enc.hash(p) != enc.hash(q)
    {
      var i :| 0 <= i < |PALLETS| && PALLETS[i] == p;
      var j :| 0 <= j < |PALLETS| && PALLETS[j] == q;
    }
    forall p, q | p in GRANDPA_ITEMS && q in GRANDPA_ITEMS && p != q
      ensures enc.hash(p) != enc.hash(q)
    {
      var i :| 0 <= i < |GRANDPA_ITEMS| && GRANDPA_ITEMS[i] == p;
      var j :| 0 <= j < |GRANDPA_ITEMS| && GRANDPA_ITEMS[j] == q;
    }
  }

  /** A removed key belongs to Session, to SubtensorModule or to one of four Grandpa items. */
  lemma RemovedParts(enc: Encoding, key: string)
    requires NoCollision(enc) && IsRemoved(enc, key)
    ensures PalletPart(key) == enc.hash("Session") || PalletPart(key) == enc.hash("SubtensorModule") ||
            (PalletPart(key) == enc.hash("Grandpa") &&
             (ItemPart(key) == enc.hash("PendingChange") || ItemPart(key) == enc.hash("NextForced") ||
              ItemPart(key) == enc.hash("Stalled") || ItemPart(key) == enc.hash("SetIdSession")))
  {
    NamedLengths(enc);
    if Prefix(enc, "Session") <= key {
      PrefixPart(enc, "Session", key);
    } else if Key(enc, "SubtensorModule", "LastEpochBlock") <= key {
      KeyParts(enc, "SubtensorModule", "LastEpochBlock", key);
    } else if Key(enc, "SubtensorModule", "PendingEpochAt") <= key {
      KeyParts(enc, "SubtensorModule", "PendingEpochAt", key);
    } else if Key(enc, "Grandpa", "SetIdSession") <= key {
      KeyParts(enc, "Grandpa", "SetIdSession", key);
    } else if Key(enc, "Grandpa", "PendingChange") == key {
      KeyParts(enc, "Grandpa", "PendingChange", key);
    } else if Key(enc, "Grandpa", "NextForced") == key {
      KeyParts(enc, "Grandpa", "NextForced", key);
    } else {
      KeyParts(enc, "Grandpa", "Stalled", key);
    }
  }

  lemma NamedLengths(enc: Encoding)
    requires NoCollision(enc)
    ensures forall p :: p in PALLETS || p in GRANDPA_ITEMS ==> |enc.hash(p)| == HASH_LENGTH
    ensures "Grandpa" in PALLETS && "Session" in PALLETS && "SubtensorModule" in PALLETS &&
            "System" in PALLETS && "Sudo" in PALLETS && "Aura" in PALLETS
    ensures "Authorities" in GRANDPA_ITEMS && "CurrentSetId" in GRANDPA_ITEMS && "State" in GRANDPA_ITEMS
    ensures "PendingChange" in GRANDPA_ITEMS && "NextForced" in GRANDPA_ITEMS && "Stalled" in GRANDPA_ITEMS &&
            "SetIdSession" in GRANDPA_ITEMS
  {
    assert PALLETS[0] == "Aura" && PALLETS[1] == "Grandpa" && PALLETS[2] == "Sudo" && PALLETS[3] == "Session" &&
           PALLETS[4] == "SubtensorModule" && PALLETS[5] == "System";
    assert GRANDPA_ITEMS[0] == "Authorities" && GRANDPA_ITEMS[1] == "CurrentSetId" && GRANDPA_ITEMS[2] == "State";
    assert GRANDPA_ITEMS[3] == "PendingChange" && GRANDPA_ITEMS[4] == "NextForced" &&
           GRANDPA_ITEMS[5] == "Stalled" && GRANDPA_ITEMS[6] == "SetIdSession";
  }

  /** The names are told apart by their spelling. */
  lemma Spellings()
    ensures {"Aura", "Sudo", "System"} !! {"Grandpa", "Session", "SubtensorModule"}
    ensures "Aura" != "Sudo" && "Aura" != "System" && "Sudo" != "System"
    ensures "Grandpa" != "Session" && "Grandpa" != "SubtensorModule"
    ensures "Authorities" != "State" && "Authorities" != "CurrentSetId" && "CurrentSetId" != "State"
    ensures {"Authorities", "CurrentSetId", "State"} !! {"PendingChange", "NextForced", "Stalled", "SetIdSession"}
  {
    assert |"Aura"| == |"Sudo"| == 4 && |"System"| == 6 && |"Grandpa"| == |"Session"| == 7 && |"SubtensorModule"| == 15;
    assert "Aura"[0] != "Sudo"[0] && "Grandpa"[0] != "Session"[0];
    assert |"Authorities"| == 11 && |"CurrentSetId"| == |"SetIdSession"| == 12 && |"State"| == 5;
    assert |"PendingChange"| == 13 && |"NextForced"| == 10 && |"Stalled"| == 7;
    assert "CurrentSetId"[0] != "SetIdSession"[0];
  }

  /** Keys of Aura, Sudo and System are not removed. */
  lemma OtherPalletStays(enc: Encoding, pallet: string, key: string)
    requires NoCollision(enc) && pallet in {"Aura", "Sudo", "System"} && PalletPart(key) == enc.hash(pallet)
    ensures !IsRemoved(enc, key)
  {
    NamedLengths(enc);
    Spellings();
    PalletsApart(enc);
    if IsRemoved(enc, key) {
      RemovedParts(enc, key);
    }
  }

  /** Neither are the Grandpa items that the patch inserts. */
  lemma GrandpaItemStays(enc: Encoding, item: string, key: string)
    requires NoCollision(enc) && item in {"Authorities", "CurrentSetId", "State"}
    requires PalletPart(key) == enc.hash("Grandpa") && ItemPart(key) == enc.hash(item)
    ensures !IsRemoved(enc, key)
  {
    NamedLengths(enc);
    Spellings();
    PalletsApart(enc);
    if IsRemoved(enc, key) {
      RemovedParts(enc, key);
    }
  }

  /** The state after the patch, key by key. */
  lemma PatchIsIntended(enc: Encoding, validators: seq<string>, top: Top, key: string)
    requires validators != [] && NoCollision(enc)
    ensures FateOf(Patch(enc, validators), key) == Intended(enc, validators, key)
    ensures Entry(Apply(Patch(enc, validators), top), key) ==
            match Intended(enc, validators, key)
            case Kept => Entry(top, key)
            case Set(v) => Some(v)
            case Gone => None
  {
    PatchInOrder(enc, validators, key);
    OwnerFate(enc, validators[0], key);
    ClearedFate(enc, key);
    AuthoritiesFate(enc, validators, key);
    if key == Key(enc, "Sudo", "Key") {
      SudoStays(enc);
    }
    ApplyIs(Patch(enc, validators), top, key);
  }

  lemma SudoStays(enc: Encoding)
    requires NoCollision(enc)
    ensures !IsRemoved(enc, Key(enc, "Sudo", "Key"))
    ensures PalletPart(Key(enc, "Sudo", "Key")) == enc.hash("Sudo")
  {
    NamedLengths(enc);
    KeyParts(enc, "Sudo", "Key", Key(enc, "Sudo", "Key"));
    OtherPalletStays(enc, "Sudo", Key(enc, "Sudo", "Key"));
  }

  lemma AccountParts(enc: Encoding, validators: seq<string>, key: string)
    requires NoCollision(enc) && IsAccount(enc, validators, key)
    ensures |key| >= 2 + 2 * HASH_LENGTH && PalletPart(key) == enc.hash("System")
  {
    var i :| 0 <= i < |validators| && key == AccountKey(enc, validators[i]);
    NamedLengths(enc);
    KeyParts(enc, "System", "Account", key);
  }

  /** A full key outside System and Sudo is no account, not the owner's and not the well-known one. */
  lemma PlainKey(enc: Encoding, validators: seq<string>, pallet: string, key: string)
    requires NoCollision(enc) && |key| >= 2 + 2 * HASH_LENGTH
    requires pallet in {"Aura", "Grandpa", "Session", "SubtensorModule"} && PalletPart(key) == enc.hash(pallet)
    ensures !IsAccount(enc, validators, key) && key != Key(enc, "Sudo", "Key") && key != enc.wellKnown
  {
    NamedLengths(enc);
    Spellings();
    PalletsApart(enc);
    SudoStays(enc);
    if IsAccount(enc, validators, key) {
      AccountParts(enc, validators, key);
    }
  }

  /** The owner's key keeps its value whatever is removed after it. */
  lemma OwnerSurvives(enc: Encoding, validators: seq<string>, top: Top)
    requires validators != [] && NoCollision(enc)
    ensures Entry(Apply(Patch(enc, validators), top), Key(enc, "Sudo", "Key")) == Some(enc.sudo(validators[0]))
  {
    var key := Key(enc, "Sudo", "Key");
    SudoStays(enc);
    NamedLengths(enc);
    Spellings();
    PalletsApart(enc);
    if IsAccount(enc, validators, key) {
      AccountParts(enc, validators, key);
    }
    PatchIsIntended(enc, validators, top, key);
  }

  /** Validators with different accounts have different keys, so none overwrites another. */
  lemma AccountKeysDiffer(enc: Encoding, a: string, b: string)
    requires |enc.blake(enc.accountId(a))| == |enc.blake(enc.accountId(b))|
    ensures AccountKey(enc, a) == AccountKey(enc, b) ==> enc.accountId(a) == enc.accountId(b)
  {
    var n := |Key(enc, "System", "Account")| + |enc.blake(enc.accountId(a))|;
    assert AccountKey(enc, a)[n..] == enc.accountId(a) && AccountKey(enc, b)[n..] == enc.accountId(b);
  }

  /** Every validator's account is funded. */
  lemma AccountsSurvive(enc: Encoding, validators: seq<string>, top: Top, i: nat)
    requires NoCollision(enc) && i < |validators|
    ensures var id := enc.accountId(validators[i]);
            Entry(Apply(Patch(enc, validators), top), "0x" + enc.hash("System") + enc.hash("Account") + enc.blake(id) + id) == Some(enc.funded)
  {
    PatchIsIntended(enc, validators, top, AccountKey(enc, validators[i]));
  }

  /** The block production key keeps its value despite the removals that follow. */
  lemma AuraSurvives(enc: Encoding, validators: seq<string>, top: Top)
    requires validators != [] && NoCollision(enc)
    ensures Entry(Apply(Patch(enc, validators), top), Key(enc, "Aura", "Authorities")) == Some(enc.aura(validators))
  {
    var key := Key(enc, "Aura", "Authorities");
    NamedLengths(enc);
    KeyParts(enc, "Aura", "Authorities", key);
    OtherPalletStays(enc, "Aura", key);
    PlainKey(enc, validators, "Aura", key);
    NotGrandpa(enc, key);
    PatchIsIntended(enc, validators, top, key);
  }

  lemma NotGrandpa(enc: Encoding, key: string)
    requires NoCollision(enc) && PalletPart(key) == enc.hash("Aura")
    ensures key != Key(enc, "Grandpa", "State") && key != Key(enc, "Grandpa", "CurrentSetId") && key != Key(enc, "Grandpa", "Authorities")
  {
    NamedLengths(enc);
    Spellings();
    PalletsApart(enc);
    KeyParts(enc, "Grandpa", "State", Key(enc, "Grandpa", "State"));
    KeyParts(enc, "Grandpa", "CurrentSetId", Key(enc, "Grandpa", "CurrentSetId"));
    KeyParts(enc, "Grandpa", "Authorities", Key(enc, "Grandpa", "Authorities"));
  }

  /** The finality keys keep their values: the removals take other items of the same pallet. */
  lemma GrandpaSurvives(enc: Encoding, validators: seq<string>, top: Top, item: string)
    requires validators != [] && NoCollision(enc) && item in {"Authorities", "CurrentSetId", "State"}
    ensures Entry(Apply(Patch(enc, validators), top), Key(enc, "Grandpa", item)) ==
            Some(if item == "Authorities" then enc.grandpa(validators) else if item == "CurrentSetId" then enc.zero else "0x00")
  {
    var key := Key(enc, "Grandpa", item);
    NamedLengths(enc);
    KeyParts(enc, "Grandpa", item, key);
    GrandpaItemStays(enc, item, key);
    PlainKey(enc, validators, "Grandpa", key);
    ItemIs(enc, item);
    PatchIsIntended(enc, validators, top, key);
  }

  lemma ItemIs(enc: Encoding, item: string)
    requires NoCollision(enc) && item in {"Authorities", "CurrentSetId", "State"}
    ensures Key(enc, "Grandpa", item) == Key(enc, "Grandpa", "State") <==> item == "State"
    ensures Key(enc, "Grandpa", item) == Key(enc, "Grandpa", "CurrentSetId") <==> item == "CurrentSetId"
  {
    NamedLengths(enc);
    Spellings();
    PalletsApart(enc);
    KeyParts(enc, "Grandpa", item, Key(enc, "Grandpa", item));
    KeyParts(enc, "Grandpa", "State", Key(enc, "Grandpa", "State"));
    KeyParts(enc, "Grandpa", "CurrentSetId", Key(enc, "Grandpa", "CurrentSetId"));
  }

  /** Nothing that the patch removes is there afterwards. */
  lemma RemovedKeysAreGone(enc: Encoding, validators: seq<string>, top: Top, key: string)
    requires validators != [] && NoCollision(enc) && IsRemoved(enc, key)
    ensures key !in Apply(Patch(enc, validators), top)
  {
    SudoStays(enc);
    if IsAccount(enc, validators, key) {
      AccountParts(enc, validators, key);
      OtherPalletStays(enc, "System", key);
    }
    PatchIsIntended(enc, validators, top, key);
  }

  /** The well-known key, too, keeps its value. */
  lemma WellKnownSurvives(enc: Encoding, validators: seq<string>, top: Top)
    requires validators != [] && NoCollision(enc)
    ensures Entry(Apply(Patch(enc, validators), top), enc.wellKnown) == Some(enc.versioned(validators))
  {
    var key := enc.wellKnown;
    if IsAccount(enc, validators, key) {
      AccountParts(enc, validators, key);
    }
    ShortKeyStays(enc, key);
    PatchIsIntended(enc, validators, top, key);
  }

  lemma ShortKeyStays(enc: Encoding, key: string)
    requires NoCollision(enc) && |key| < 2 + 2 * HASH_LENGTH && !(Prefix(enc, "Session") <= key)
    ensures !IsRemoved(enc, key) && key != Key(enc, "Sudo", "Key")
    ensures key != Key(enc, "Grandpa", "State") && key != Key(enc, "Grandpa", "CurrentSetId")
  {
    NamedLengths(enc);
  }
}
