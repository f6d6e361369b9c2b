/** The patch itself: the operations of `patch_raw_spec` in their order, on a mutable spec. */
module ClonePatch {
  import opened Wrappers
  import opened RawSpec

  /** What lies outside the model: the storage hash and the encoders, all rendered as hex text. */
  datatype Encoding = Encoding(
    hash: string -> string,             // twox_128 of a name
    wellKnown: string,                  // the well-known authorities key
    accountId: string -> string,        // the encoded account of a validator's seed
    blake: string -> string,            // blake2_128 of an encoded account
    aura: seq<string> -> string,
    grandpa: seq<string> -> string,
    versioned: seq<string> -> string,   // the authorities under the well-known key
    sudo: string -> string,
    zero: string,
    funded: string)                     // an account with the development balance

  function Key(enc: Encoding, pallet: string, item: string): string {
    "0x" + enc.hash(pallet) + enc.hash(item)
  }

  function Prefix(enc: Encoding, pallet: string): string {
    "0x" + enc.hash(pallet)
  }

  /** The map hashes its keys with Blake2_128Concat: the hash, then the key itself. */
  function AccountKey(enc: Encoding, seed: string): string {
    Key(enc, "System", "Account") + enc.blake(enc.accountId(seed)) + enc.accountId(seed)
  }

  // ----- The operations ------------------------------------------------------------------

  function Authorities(enc: Encoding, validators: seq<string>): seq<Op> {
    [Put(Key(enc, "Aura", "Authorities"), enc.aura(validators)),
     Put(Key(enc, "Grandpa", "Authorities"), enc.grandpa(validators)),
     Put(enc.wellKnown, enc.versioned(validators)),
     Put(Key(enc, "Grandpa", "CurrentSetId"), enc.zero),
     Put(Key(enc, "Grandpa", "State"), "0x00")]
  }

  function Cleared(enc: Encoding): seq<Op> {
    [Drop(Key(enc, "Grandpa", "PendingChange")),
     Drop(Key(enc, "Grandpa", "NextForced")),
     Drop(Key(enc, "Grandpa", "Stalled")),
     DropPrefix(Key(enc, "Grandpa", "SetIdSession"))]
  }

  function Owner(enc: Encoding, sudo: string): seq<Op> {
    [Put(Key(enc, "Sudo", "Key"), enc.sudo(sudo)),
     DropPrefix(Prefix(enc, "Session")),
     DropPrefix(Key(enc, "SubtensorModule", "LastEpochBlock")),
     DropPrefix(Key(enc, "SubtensorModule", "PendingEpochAt"))]
  }

  function Balances(enc: Encoding, validators: seq<string>): (ops: seq<Op>)
    ensures |ops| == |validators|
    ensures forall i :: 0 <= i < |validators| ==> ops[i] == Put(AccountKey(enc, validators[i]), enc.funded)
  {
    seq(|validators|, i requires 0 <= i < |validators| => Put(AccountKey(enc, validators[i]), enc.funded))
  }

  function Patch(enc: Encoding, validators: seq<string>): seq<Op>
    requires validators != []
  {
    Authorities(enc, validators) + Cleared(enc) + Owner(enc, validators[0]) + Balances(enc, validators)
  }

  // ----- The mutable spec ----------------------------------------------------------------

  datatype PatchError = NoValidator | MissingTop

  /** The raw state of a spec; `log` records the operations performed since `initial`. */
  class RawTop {
    var entries: Top
    ghost const initial: Top
    ghost var log: seq<Op>

    ghost predicate Valid()
      reads this
    {
      entries == Apply(log, initial)
    }

    constructor (entries: Top)
      ensures Valid() && this.entries == initial == entries && log == []
    {
      this.entries, initial, log := entries, entries, [];
    }

    ghost method Record(op: Op)
      requires entries == Effect(op, Apply(log, initial))
      modifies this`log
      ensures Valid() && log == old(log) + [op]
    {
      log := log + [op];
      assert log[..|log| - 1] == old(log);
    }

    method Insert(key: string, value: string)
      requires Valid()
      modifies this
      ensures Valid() && log == old(log) + [Put(key, value)]
    {
      entries := entries[key := value];
      Record(Put(key, value));
    }

    method Remove(key: string)
      requires Valid()
      modifies this
      ensures Valid() && log == old(log) + [Drop(key)]
    {
      entries := entries - {key};
      Record(Drop(key));
    }

    /** `remove_by_prefix`: collect the matching keys in a queue, then remove them one by one. */
    method RemoveByPrefix(prefix: string)
      requires Valid()
      modifies this
      ensures Valid() && log == old(log) + [DropPrefix(prefix)]
    {
      var pending, queue := entries.Keys, [];
      while pending != {}
        invariant entries == old(entries) && log == old(log) && pending <= entries.Keys
        invariant forall k :: k in queue <==> k in entries.Keys - pending && prefix <= k
        decreases pending
      {
        var key :| key in pending;
        pending := pending - {key};
        if prefix <= key {
          queue := queue + [key];
        }
      }
      ghost var removed: set<string> := {};
      while queue != []
        invariant log == old(log) && entries == old(entries) - removed
        invariant forall k :: k in removed || k in queue <==> k in old(entries) && prefix <= k
        decreases |queue|
      {
        var key := queue[0];
        assert queue == [key] + queue[1..];
        queue := queue[1..];
        entries := entries - {key};
        removed := removed + {key};
      }
      assert entries == Effect(DropPrefix(prefix), old(entries));
      Record(DropPrefix(prefix));
    }
  }

  lemma {:induction false} ApplyConcat(a: seq<Op>, b: seq<Op>, top: Top)
    ensures Apply(a + b, top) == Apply(b, Apply(a, top))
  {
    if b == [] {
      assert a + b == a;
    } else {
      assert (a + b)[..|a + b| - 1] == a + b[..|b| - 1];
      ApplyConcat(a, b[..|b| - 1], top);
    }
  }

  lemma Regroup(log: seq<Op>, a: seq<Op>, b: seq<Op>, c: seq<Op>, d: seq<Op>)
    ensures log + a + b + c + d == log + (a + b + c + d)
  {
  }

  /** The three fields that `clear_top_level` resets. */
  function ClearTopLevel(fields: map<string, string>): map<string, string> {
    fields["bootNodes" := "[]"]["codeSubstitutes" := "{}"]["chainType" := "\"Local\""]
  }

  lemma TopLevelIs(fields: map<string, string>)
    ensures var after := ClearTopLevel(fields);
            after.Keys == fields.Keys + {"bootNodes", "codeSubstitutes", "chainType"} &&
            after["bootNodes"] == "[]" && after["codeSubstitutes"] == "{}" && after["chainType"] == "\"Local\"" &&
            forall k :: k in fields && k !in {"bootNodes", "codeSubstitutes", "chainType"} ==> after[k] == fields[k]
  {
    assert "bootNodes"[0] != "codeSubstitutes"[0] && "bootNodes"[0] != "chainType"[0] && "codeSubstitutes"[1] != "chainType"[1];
  }

  /** A chain spec: its raw state, missing when there is no valid one, and its other fields. */
  class ChainSpec {
    var top: RawTop?
    var fields: map<string, string>

    constructor (top: RawTop?, fields: map<string, string>)
      ensures this.top == top && this.fields == fields
    {
      this.top, this.fields := top, fields;
    }

    /** `patch_raw_spec`: an error leaves the spec as it was. */
    method PatchRawSpec(enc: Encoding, validators: seq<string>) returns (r: Result<(), PatchError>)
      requires top != null ==> top.Valid()
      modifies this`fields, top
      ensures top != null ==> top.Valid()
      ensures r == (if validators == [] then Failure(NoValidator) else if top == null then Failure(MissingTop) else Success(()))
      ensures r.Failure? ==> fields == old(fields) && (top != null ==> top.entries == old(top.entries))
      ensures r.Success? ==> fields == ClearTopLevel(old(fields)) &&
                             top.entries == Apply(Patch(enc, validators), old(top.entries))
      ensures r.Success? ==>
                fields.Keys == old(fields).Keys + {"bootNodes", "codeSubstitutes", "chainType"} &&
                fields["bootNodes"] == "[]" && fields["codeSubstitutes"] == "{}" && fields["chainType"] == "\"Local\"" &&
                forall k :: k in old(fields) && k !in {"bootNodes", "codeSubstitutes", "chainType"} ==> fields[k] == old(fields)[k]
    {
      if validators == [] {
        return Failure(NoValidator);
      }
      if top == null {
        return Failure(MissingTop);
      }
      ghost var before := top.log;
      PatchTop(enc, validators);
      ApplyConcat(before, Patch(enc, validators), top.initial);
      TopLevelIs(fields);
      fields := ClearTopLevel(fields);
      return Success(());
    }

    method PatchTop(enc: Encoding, validators: seq<string>)
      requires top != null && top.Valid() && validators != []
      modifies top
      ensures top.Valid() && top.log == old(top.log) + Patch(enc, validators)
    {
      SetAuthorities(enc, validators);
      ClearPending(enc);
      SetOwner(enc, validators[0]);
      SetBalances(enc, validators);
      Regroup(old(top.log), Authorities(enc, validators), Cleared(enc), Owner(enc, validators[0]), Balances(enc, validators));
    }

    method SetAuthorities(enc: Encoding, validators: seq<string>)
      requires top != null && top.Valid()
      modifies top
      ensures top.Valid() && top.log == old(top.log) + Authorities(enc, validators)
    {
      top.Insert(Key(enc, "Aura", "Authorities"), enc.aura(validators));
      top.Insert(Key(enc, "Grandpa", "Authorities"), enc.grandpa(validators));
      top.Insert(enc.wellKnown, enc.versioned(validators));
      top.Insert(Key(enc, "Grandpa", "CurrentSetId"), enc.zero);
      top.Insert(Key(enc, "Grandpa", "State"), "0x00");
    }

    method ClearPending(enc: Encoding)
      requires top != null && top.Valid()
      modifies top
      ensures top.Valid() && top.log == old(top.log) + Cleared(enc)
    {
      top.Remove(Key(enc, "Grandpa", "PendingChange"));
      top.Remove(Key(enc, "Grandpa", "NextForced"));
      top.Remove(Key(enc, "Grandpa", "Stalled"));
      top.RemoveByPrefix(Key(enc, "Grandpa", "SetIdSession"));
    }

    method SetOwner(enc: Encoding, sudo: string)
      requires top != null && top.Valid()
      modifies top
      ensures top.Valid() && top.log == old(top.log) + Owner(enc, sudo)
    {
      top.Insert(Key(enc, "Sudo", "Key"), enc.sudo(sudo));
      top.RemoveByPrefix(Prefix(enc, "Session"));
      top.RemoveByPrefix(Key(enc, "SubtensorModule", "LastEpochBlock"));
      top.RemoveByPrefix(Key(enc, "SubtensorModule", "PendingEpochAt"));
    }

    /** `set_validator_balances`. */
    method SetBalances(enc: Encoding, validators: seq<string>)
      requires top != null && top.Valid()
      modifies top
      ensures top.Valid() && top.log == old(top.log) + Balances(enc, validators)
    {
      for i := 0 to |validators|
        invariant top.Valid() && top.log == old(top.log) + Balances(enc, validators)[..i]
      {
        top.Insert(AccountKey(enc, validators[i]), enc.funded);
        assert Balances(enc, validators)[..i + 1] == Balances(enc, validators)[..i] + [Put(AccountKey(enc, validators[i]), enc.funded)];
      }
      assert Balances(enc, validators)[..|validators|] == Balances(enc, validators);
    }
  }
}
