/** The secret-reference index kept by the desktop back end
    (`AppState.secret_references`): an ordered list of reference records, the
    in-memory edits each command makes to it, and the command outcomes. The
    keychain call and the write of the index file are I/O; their success is
    passed in as `keychainOk` / `saveOk`. */
module ReferenceIndex {
  import opened Wrappers

  datatype SecretReference = SecretReference(
    id: string,
    name: string,
    secretType: string,
    createdAt: string,
    lastUsed: Option<string>)

  type Index = seq<SecretReference>

  /** How many records carry `id`. */
  function CountId(refs: Index, id: string): nat {
    if |refs| == 0 then 0
    else (if refs[0].id == id then 1 else 0) + CountId(refs[1..], id)
  }

  lemma {:induction false} CountIdZero(refs: Index, id: string)
    ensures CountId(refs, id) == 0 <==> forall x :: x in refs ==> x.id != id
  {
    if |refs| > 0 {
      CountIdZero(refs[1..], id);
      assert forall x :: x in refs ==> x == refs[0] || x in refs[1..];
    }
  }

  lemma {:induction false} CountIdAppend(a: Index, b: Index, id: string)
    ensures CountId(a + b, id) == CountId(a, id) + CountId(b, id)
  {
    if |a| == 0 {
      assert a + b == b;
    } else {
      assert (a + b)[1..] == a[1..] + b;
      CountIdAppend(a[1..], b, id);
    }
  }

  /** No two records share an id. */
  predicate UniqueIds(refs: Index) {
    forall i, j :: 0 <= i < j < |refs| ==> refs[i].id != refs[j].id
  }

  /** `refs.retain(|r| r.id != id)`: drops every record carrying `id` and
      keeps every other record, in order. */
  function Remove(refs: Index, id: string): (r: Index)
    ensures forall x :: x in r <==> x in refs && x.id != id
    ensures |r| == |refs| - CountId(refs, id)
    ensures CountId(refs, id) == 0 ==> r == refs
  {
    if |refs| == 0 then []
    else if refs[0].id == id then Remove(refs[1..], id)
    else [refs[0]] + Remove(refs[1..], id)
  }

  /** Removal distributes over concatenation, so the survivors keep their
      relative order. */
  lemma {:induction false} RemoveAppend(a: Index, b: Index, id: string)
    ensures Remove(a + b, id) == Remove(a, id) + Remove(b, id)
  {
    if |a| == 0 {
      assert a + b == b;
    } else {
      assert (a + b)[0] == a[0] && (a + b)[1..] == a[1..] + b;
      RemoveAppend(a[1..], b, id);
      if a[0].id != id {
        var x, y := Remove(a[1..], id), Remove(b, id);
        assert [a[0]] + (x + y) == ([a[0]] + x) + y;
      }
    }
  }

  /** Removing twice is removing once (the front end asks the back end to
      delete both the secret and its reference). */
  lemma RemoveIdempotent(refs: Index, id: string)
    ensures Remove(Remove(refs, id), id) == Remove(refs, id)
  {
    CountIdZero(Remove(refs, id), id);
  }

  /** A list with a given head has unique ids iff its tail does and the
      head's id is not in the tail. */
  lemma UniqueCons(x: SecretReference, t: Index)
    ensures UniqueIds([x] + t) <==> UniqueIds(t) && forall y :: y in t ==> y.id != x.id
  {
    var r := [x] + t;
    if UniqueIds(r) {
      forall i, j | 0 <= i < j < |t| ensures t[i].id != t[j].id {
        assert t[i] == r[i + 1] && t[j] == r[j + 1];
      }
      forall y | y in t ensures y.id != x.id {
        var k :| 0 <= k < |t| && t[k] == y;
        assert r[0] == x && r[k + 1] == y;
      }
    }
    if UniqueIds(t) && forall y :: y in t ==> y.id != x.id {
      forall i, j | 0 <= i < j < |r| ensures r[i].id != r[j].id {
        assert r[j] == t[j - 1] && r[j] in t;
        if i == 0 {
          assert r[i] == x;
        } else {
          assert r[i] == t[i - 1];
        }
      }
    }
  }

  /** Removal keeps ids unique. */
  lemma {:induction false} RemoveKeepsUnique(refs: Index, id: string)
    requires UniqueIds(refs)
    ensures UniqueIds(Remove(refs, id))
  {
    if |refs| > 0 {
      assert refs == [refs[0]] + refs[1..];
      UniqueCons(refs[0], refs[1..]);
      RemoveKeepsUnique(refs[1..], id);
      if refs[0].id != id {
        UniqueCons(refs[0], Remove(refs[1..], id));
      }
    }
  }

  /** The in-memory effect of `store_secret` and `store_secret_reference`:
      `retain` then `push`. Afterwards exactly one record has the id and it
      is the last one; the others are those that were there, in order. */
  function Upsert(refs: Index, entry: SecretReference): (r: Index)
    ensures |r| > 0 && r[|r| - 1] == entry
    ensures r[..|r| - 1] == Remove(refs, entry.id)
    ensures CountId(r, entry.id) == 1
    ensures forall x :: x in r <==> x == entry || (x in refs && x.id != entry.id)
  {
    var kept := Remove(refs, entry.id);
    CountIdZero(kept, entry.id);
    CountIdAppend(kept, [entry], entry.id);
    assert CountId([entry], entry.id) == 1 by {
      assert [entry][1..] == [];
    }
    var r := kept + [entry];
    assert r[..|r| - 1] == kept;
    r
  }

  /** An upsert keeps ids unique. */
  lemma UpsertKeepsUnique(refs: Index, entry: SecretReference)
    requires UniqueIds(refs)
    ensures UniqueIds(Upsert(refs, entry))
  {
    RemoveKeepsUnique(refs, entry.id);
    var kept := Remove(refs, entry.id);
    var r := Upsert(refs, entry);
    forall i, j | 0 <= i < j < |r| ensures r[i].id != r[j].id {
      assert r[i] == kept[i];
      if j == |r| - 1 {
        assert kept[i] in kept;
      } else {
        assert r[j] == kept[j];
      }
    }
  }

  /** A second upsert with the same id replaces the first: the front end's
      `store_secret_reference` overrides the record `store_secret` pushed. */
  lemma UpsertSameIdOverrides(refs: Index, first: SecretReference, second: SecretReference)
    requires first.id == second.id
    ensures Upsert(Upsert(refs, first), second) == Upsert(refs, second)
  {
    var once := Upsert(refs, first);
    var kept := Remove(refs, first.id);
    assert once == kept + [first];
    RemoveAppend(kept, [first], first.id);
    assert Remove([first], first.id) == [];
    assert Remove(once, first.id) == Remove(kept, first.id) + [];
    RemoveIdempotent(refs, first.id);
    assert Remove(kept, first.id) + [] == kept;
  }

  /** `iter_mut().find(|r| r.id == id)` then setting `last_used`: `None` when
      no record carries `id`; otherwise only the first such record changes,
      and only in `lastUsed`. */
  function Touch(refs: Index, id: string, stamp: string): (r: Option<Index>)
    ensures r.None? <==> forall x :: x in refs ==> x.id != id
    ensures r.Some? ==> |r.value| == |refs| && exists k :: FirstWithId(refs, id, k) && r.value == refs[k := refs[k].(lastUsed := Some(stamp))]
  {
    if |refs| == 0 then None
    else if refs[0].id == id then
      var r := refs[0 := refs[0].(lastUsed := Some(stamp))];
      assert FirstWithId(refs, id, 0);
      Some(r)
    else
      match Touch(refs[1..], id, stamp)
      case None => None
      case Some(t) =>
        var k :| FirstWithId(refs[1..], id, k) && t == refs[1..][k := refs[1..][k].(lastUsed := Some(stamp))];
        assert FirstWithId(refs, id, k + 1);
        assert [refs[0]] + t == refs[k + 1 := refs[k + 1].(lastUsed := Some(stamp))];
        Some([refs[0]] + t)
  }

  /** `k` is the position of the first record carrying `id`. */
  predicate FirstWithId(refs: Index, id: string, k: int) {
    0 <= k < |refs| && refs[k].id == id && forall j :: 0 <= j < k ==> refs[j].id != id
  }

  /** Touching never changes an id, so it keeps ids unique. */
  lemma TouchKeepsUnique(refs: Index, id: string, stamp: string)
    requires UniqueIds(refs)
    requires Touch(refs, id, stamp).Some?
    ensures UniqueIds(Touch(refs, id, stamp).value)
  {
    var r := Touch(refs, id, stamp).value;
    var k :| FirstWithId(refs, id, k) && r == refs[k := refs[k].(lastUsed := Some(stamp))];
    assert forall i :: 0 <= i < |r| ==> r[i].id == refs[i].id;
  }

  /** What a command leaves in memory and what it returns to the caller. */
  datatype Reply = Reply(refs: Index, outcome: Result<(), string>)

  /** `store_secret`: a keychain failure returns before the index is touched;
      otherwise the new record (created now, never used) is upserted, and
      the reply is an error if the index file could not be written, while
      the in-memory edit stays. */
  function StoreSecret(refs: Index, id: string, name: string, secretType: string, now: string, keychainOk: bool, saveOk: bool): (r: Reply)
    ensures !keychainOk ==> r.refs == refs && r.outcome.Failure?
    ensures keychainOk ==> r.refs == Upsert(refs, SecretReference(id, name, secretType, now, None))
    ensures r.outcome.Success? <==> keychainOk && saveOk
  {
    if !keychainOk then Reply(refs, Failure("Failed to store secret in keychain"))
    else
      var refs' := Upsert(refs, SecretReference(id, name, secretType, now, None));
      Reply(refs', if saveOk then Success(()) else Failure("Failed to write references file"))
  }

  /** `store_secret_reference`: upserts the record supplied by the front end. */
  function StoreSecretReference(refs: Index, reference: SecretReference, saveOk: bool): (r: Reply)
    ensures r.refs == Upsert(refs, reference)
    ensures CountId(r.refs, reference.id) == 1 && r.refs[|r.refs| - 1] == reference
    ensures r.outcome.Success? <==> saveOk
  {
    Reply(Upsert(refs, reference), if saveOk then Success(()) else Failure("Failed to write references file"))
  }

  /** `delete_secret`: the index is edited only after the keychain deletion
      succeeded. */
  function DeleteSecret(refs: Index, id: string, keychainOk: bool, saveOk: bool): (r: Reply)
    ensures !keychainOk ==> r.refs == refs && r.outcome.Failure?
    ensures keychainOk ==> CountId(r.refs, id) == 0 && r.refs == Remove(refs, id)
    ensures r.outcome.Success? <==> keychainOk && saveOk
  {
    if !keychainOk then Reply(refs, Failure("Failed to delete secret from keychain"))
    else
      var refs' := Remove(refs, id);
      CountIdZero(refs', id);
      Reply(refs', if saveOk then Success(()) else Failure("Failed to write references file"))
  }

  /** `delete_secret_reference`. */
  function DeleteSecretReference(refs: Index, id: string, saveOk: bool): (r: Reply)
    ensures r.refs == Remove(refs, id)
    ensures CountId(r.refs, id) == 0
    ensures forall x :: x in refs && x.id != id ==> x in r.refs
    ensures r.outcome.Success? <==> saveOk
  {
    var refs' := Remove(refs, id);
    CountIdZero(refs', id);
    Reply(refs', if saveOk then Success(()) else Failure("Failed to write references file"))
  }

  /** `update_secret_last_used`: an unknown id leaves the index as it was
      and succeeds without writing the file. */
  function UpdateSecretLastUsed(refs: Index, id: string, stamp: string, saveOk: bool): (r: Reply)
    ensures (forall x :: x in refs ==> x.id != id) ==> r == Reply(refs, Success(()))
    ensures |r.refs| == |refs|
    ensures forall i :: 0 <= i < |refs| ==> r.refs[i].id == refs[i].id
    ensures (exists x :: x in refs && x.id == id) ==>
      exists k :: FirstWithId(refs, id, k) && r.refs == refs[k := refs[k].(lastUsed := Some(stamp))]
    ensures (exists x :: x in refs && x.id == id) ==> (r.outcome.Success? <==> saveOk)
  {
    match Touch(refs, id, stamp)
    case None => Reply(refs, Success(()))
    case Some(refs') =>
      Reply(refs', if saveOk then Success(()) else Failure("Failed to write references file"))
  }

  /** Every command keeps the ids of the index unique. */
  lemma CommandsKeepUnique(refs: Index, id: string, name: string, secretType: string, stamp: string, reference: SecretReference, keychainOk: bool, saveOk: bool)
    requires UniqueIds(refs)
    ensures UniqueIds(StoreSecret(refs, id, name, secretType, stamp, keychainOk, saveOk).refs)
    ensures UniqueIds(StoreSecretReference(refs, reference, saveOk).refs)
    ensures UniqueIds(DeleteSecret(refs, id, keychainOk, saveOk).refs)
    ensures UniqueIds(DeleteSecretReference(refs, id, saveOk).refs)
    ensures UniqueIds(UpdateSecretLastUsed(refs, id, stamp, saveOk).refs)
  {
    UpsertKeepsUnique(refs, SecretReference(id, name, secretType, stamp, None));
    UpsertKeepsUnique(refs, reference);
    RemoveKeepsUnique(refs, id);
    if Touch(refs, id, stamp).Some? {
      TouchKeepsUnique(refs, id, stamp);
    }
  }
}
