/** `load_collections`: every readable `*.json` file of the collections
    directory that deserialises is loaded, and the list is ordered by
    `updated_at`, newest first, with Rust's string ordering. Rust compares
    the UTF-8 bytes; on sequences of Unicode scalar values that is the
    lexicographic order of the code points, which is what `Less` is. */
module CollectionOrder {
  import opened Wrappers
  import Sequences
  import opened Backend

  /** Strict lexicographic order. */
  predicate Less(a: string, b: string)
    decreases |a|
  {
    if |a| == 0 then |b| > 0
    else if |b| == 0 then false
    else if a[0] != b[0] then a[0] < b[0]
    else Less(a[1..], b[1..])
  }

  predicate AtMost(a: string, b: string) {
    a == b || Less(a, b)
  }

  lemma {:induction false} LessIrreflexive(a: string, b: string)
    requires Less(a, b)
    ensures a != b && !Less(b, a)
    decreases |a|
  {
    if |a| > 0 && a[0] == b[0] {
      LessIrreflexive(a[1..], b[1..]);
    }
  }

  lemma {:induction false} LessTotal(a: string, b: string)
    ensures a == b || Less(a, b) || Less(b, a)
    decreases |a|
  {
    if |a| > 0 && |b| > 0 && a[0] == b[0] {
      LessTotal(a[1..], b[1..]);
      if a[1..] == b[1..] {
        assert a == [a[0]] + a[1..] && b == [b[0]] + b[1..];
      }
    }
  }

  lemma {:induction false} LessTransitive(a: string, b: string, c: string)
    requires Less(a, b) && Less(b, c)
    ensures Less(a, c)
    decreases |a|
  {
    if |a| > 0 && a[0] == b[0] && b[0] == c[0] {
      LessTransitive(a[1..], b[1..], c[1..]);
    }
  }

  lemma AtMostTransitive(a: string, b: string, c: string)
    requires AtMost(a, b) && AtMost(b, c)
    ensures AtMost(a, c)
  {
    if Less(a, b) && Less(b, c) {
      LessTransitive(a, b, c);
    }
  }

  /** Newest first: no later entry has a greater `updated_at`. */
  predicate NewestFirst(s: seq<Collection>) {
    forall i, j :: 0 <= i < j < |s| ==> AtMost(s[j].updatedAt, s[i].updatedAt)
  }

  /** Places `x` before the first entry whose `updated_at` is not greater
      than its own, so it stays ahead of entries with an equal one. */
  function Insert(x: Collection, t: seq<Collection>): (r: seq<Collection>)
    ensures multiset(r) == multiset(t) + multiset{x}
  {
    if |t| == 0 then [x]
    else if AtMost(t[0].updatedAt, x.updatedAt) then [x] + t
    else
      assert t == [t[0]] + t[1..];
      [t[0]] + Insert(x, t[1..])
  }

  /** Every entry of `s` is at most as new as `stamp`. */
  predicate NoNewerThan(s: seq<Collection>, stamp: string) {
    forall i :: 0 <= i < |s| ==> AtMost(s[i].updatedAt, stamp)
  }

  lemma ConsNewestFirst(x: Collection, t: seq<Collection>)
    requires NewestFirst(t) && NoNewerThan(t, x.updatedAt)
    ensures NewestFirst([x] + t)
  {
    forall i, j | 0 <= i < j < |[x] + t|
      ensures AtMost(([x] + t)[j].updatedAt, ([x] + t)[i].updatedAt)
    {
      if i > 0 {
        assert ([x] + t)[i] == t[i - 1] && ([x] + t)[j] == t[j - 1];
      }
    }
  }

  lemma {:induction false} InsertNoNewer(x: Collection, t: seq<Collection>, stamp: string)
    requires NoNewerThan(t, stamp) && AtMost(x.updatedAt, stamp)
    ensures NoNewerThan(Insert(x, t), stamp)
  {
    if |t| > 0 && !AtMost(t[0].updatedAt, x.updatedAt) {
      InsertNoNewer(x, t[1..], stamp);
      var rest := Insert(x, t[1..]);
      assert forall i :: 1 <= i < |rest| + 1 ==> ([t[0]] + rest)[i] == rest[i - 1];
    }
  }

  lemma {:induction false} InsertNewestFirst(x: Collection, t: seq<Collection>)
    requires NewestFirst(t)
    ensures NewestFirst(Insert(x, t))
  {
    if |t| == 0 {
    } else if AtMost(t[0].updatedAt, x.updatedAt) {
      forall i | 0 <= i < |t| ensures AtMost(t[i].updatedAt, x.updatedAt) {
        if i > 0 {
          AtMostTransitive(t[i].updatedAt, t[0].updatedAt, x.updatedAt);
        }
      }
      ConsNewestFirst(x, t);
    } else {
      assert NewestFirst(t[1..]) by {
        forall i, j | 0 <= i < j < |t[1..]| ensures AtMost(t[1..][j].updatedAt, t[1..][i].updatedAt) {
          assert t[1..][i] == t[i + 1] && t[1..][j] == t[j + 1];
        }
      }
      InsertNewestFirst(x, t[1..]);
      LessTotal(t[0].updatedAt, x.updatedAt);
      assert NoNewerThan(t[1..], t[0].updatedAt) by {
        forall i | 0 <= i < |t[1..]| ensures AtMost(t[1..][i].updatedAt, t[0].updatedAt) {
          assert t[1..][i] == t[i + 1];
        }
      }
      InsertNoNewer(x, t[1..], t[0].updatedAt);
      ConsNewestFirst(t[0], Insert(x, t[1..]));
    }
  }

  /** The ordering step (`sort_by` on `b.updated_at.cmp(&a.updated_at)`). */
  function SortNewestFirst(s: seq<Collection>): (r: seq<Collection>)
    ensures NewestFirst(r)
    ensures multiset(r) == multiset(s)
  {
    if |s| == 0 then []
    else
      assert s == [s[0]] + s[1..];
      InsertNewestFirst(s[0], SortNewestFirst(s[1..]));
      Insert(s[0], SortNewestFirst(s[1..]))
  }

  /** The entries with one `updated_at` value, in their order. */
  function WithStamp(s: seq<Collection>, stamp: string): (r: seq<Collection>)
    ensures forall i :: 0 <= i < |r| ==> r[i].updatedAt == stamp
  {
    if |s| == 0 then []
    else
      (if s[0].updatedAt == stamp then [s[0]] else []) + WithStamp(s[1..], stamp)
  }

  lemma WithStampCons(x: Collection, t: seq<Collection>, stamp: string)
    ensures WithStamp([x] + t, stamp) == (if x.updatedAt == stamp then [x] else []) + WithStamp(t, stamp)
  {
    assert ([x] + t)[1..] == t;
  }

  lemma {:induction false} InsertStable(x: Collection, t: seq<Collection>, stamp: string)
    ensures WithStamp(Insert(x, t), stamp) == (if x.updatedAt == stamp then [x] else []) + WithStamp(t, stamp)
  {
    if |t| == 0 {
      WithStampCons(x, [], stamp);
    } else if AtMost(t[0].updatedAt, x.updatedAt) {
      WithStampCons(x, t, stamp);
    } else {
      var rest := Insert(x, t[1..]);
      assert Insert(x, t) == [t[0]] + rest;
      InsertStable(x, t[1..], stamp);
      WithStampCons(t[0], rest, stamp);
      WithStampCons(t[0], t[1..], stamp);
      Sequences.HeadTail(t);
      Sequences.SwapEmptyPrefix(
        if t[0].updatedAt == stamp then [t[0]] else [],
        if x.updatedAt == stamp then [x] else [],
        WithStamp(t[1..], stamp));
    }
  }

  /** The sort is stable: the entries sharing an `updated_at` value keep
      the relative order the directory listing gave them. */
  lemma {:induction false} SortStable(s: seq<Collection>, stamp: string)
    ensures WithStamp(SortNewestFirst(s), stamp) == WithStamp(s, stamp)
  {
    if |s| > 0 {
      SortStable(s[1..], stamp);
      InsertStable(s[0], SortNewestFirst(s[1..]), stamp);
    }
  }

  /** `path.extension() == Some("json")`: the name ends in `.json` after a
      non-empty stem. */
  predicate IsJsonFile(name: string) {
    |name| > 5 && name[|name| - 5..] == ".json"
  }

  /** A hidden file named `.json` has no extension, the match is case
      sensitive, and only the last extension counts. */
  lemma JsonFileNames()
    ensures IsJsonFile("c.json") && IsJsonFile("a.b.json") && IsJsonFile("..json")
    ensures !IsJsonFile(".json") && !IsJsonFile("c.JSON") && !IsJsonFile("c.json.bak") && !IsJsonFile("json")
  {
  }

  /** One directory entry, as a (file name, content) pair with an
      unreadable file as a missing content, yields `c`. */
  predicate Yields(entry: (string, Option<string>), deserialise: string -> Option<Collection>, c: Collection) {
    IsJsonFile(entry.0) && entry.1.Some? && deserialise(entry.1.value) == Some(c)
  }

  /** The collections the listing yields, in listing order; `deserialise`
      is `serde_json::from_str`. Everything else is skipped silently. */
  function Readable(entries: seq<(string, Option<string>)>, deserialise: string -> Option<Collection>): (r: seq<Collection>)
    ensures forall c :: c in r <==> (exists i :: 0 <= i < |entries| && Yields(entries[i], deserialise, c))
  {
    if |entries| == 0 then []
    else
      var (name, content) := entries[0];
      var here := if IsJsonFile(name) && content.Some? && deserialise(content.value).Some?
                  then [deserialise(content.value).value] else [];
      var rest := Readable(entries[1..], deserialise);
      assert forall i :: 1 <= i < |entries| ==> entries[1..][i - 1] == entries[i];
      here + rest
  }

  /** One listed entry contributes its collection when it yields one, and
      nothing otherwise. */
  lemma ReadableOne(entry: (string, Option<string>), deserialise: string -> Option<Collection>)
    ensures Readable([entry], deserialise) ==
      if IsJsonFile(entry.0) && entry.1.Some? && deserialise(entry.1.value).Some?
      then [deserialise(entry.1.value).value] else []
  {
    assert [entry][1..] == [];
  }

  /** The listing is read in order: the collections of a listing are those
      of its first part followed by those of the rest, duplicates kept. */
  lemma {:induction false} ReadableAppend(a: seq<(string, Option<string>)>, b: seq<(string, Option<string>)>,
                                          deserialise: string -> Option<Collection>)
    ensures Readable(a + b, deserialise) == Readable(a, deserialise) + Readable(b, deserialise)
  {
    if |a| == 0 {
      assert a + b == b;
    } else {
      assert (a + b)[0] == a[0];
      assert (a + b)[1..] == a[1..] + b;
      ReadableAppend(a[1..], b, deserialise);
    }
  }

  /** `load_collections` after the directory has been listed. */
  function LoadCollections(entries: seq<(string, Option<string>)>, deserialise: string -> Option<Collection>): (r: seq<Collection>)
    ensures NewestFirst(r)
    ensures multiset(r) == multiset(Readable(entries, deserialise))
  {
    SortNewestFirst(Readable(entries, deserialise))
  }
}
