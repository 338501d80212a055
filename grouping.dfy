/** The grouping engine both dashboards share: an accumulator keyed by group name that the
    documents are pushed into (`reduce` with `acc[key].push(doc)`), the entries of that
    accumulator in insertion order, and the stable sort that orders the sections. */
module Grouping {
  import opened Wrappers
  import opened Seqs
  import opened Types

  /** The field a dashboard groups by (`GroupingCriteria`). */
  datatype Criteria = BySubject | ByType | ByStatus | ByUploaderRole

  /** `doc[grouping] as string`: the raw field value a group key starts from. */
  function FieldValue(c: Criteria, d: Document): string {
    match c
    case BySubject => d.subject
    case ByType => TypeText(d.docType)
    case ByStatus => StatusText(d.status)
    case ByUploaderRole => RoleText(d.uploaderRole)
  }

  /** One section: a group key and the documents pushed under it (an `Object.entries` pair). */
  datatype Group = Group(key: string, docs: seq<Document>)

  function HasKey(key: Document -> string, k: string): Document -> bool {
    d => key(d) == k
  }

  /** The documents whose key is `k`, in input order: what `acc[k]` holds once the reduce is over. */
  function Bucket(docs: seq<Document>, key: Document -> string, k: string): seq<Document> {
    Filter(docs, HasKey(key, k))
  }

  /** The distinct keys of `docs` in order of first occurrence: the insertion order in which
      `Object.entries` reports the accumulator's properties. */
  function KeysOf(docs: seq<Document>, key: Document -> string): seq<string>
    decreases |docs|
  {
    if |docs| == 0 then []
    else
      var ks := KeysOf(docs[..|docs| - 1], key);
      var k := key(docs[|docs| - 1]);
      if k in ks then ks else ks + [k]
  }

  predicate Distinct(ks: seq<string>) {
    forall i, j :: 0 <= i < j < |ks| ==> ks[i] != ks[j]
  }

  /** The groups for the keys `ks`, each holding its bucket. */
  function GroupsFor(docs: seq<Document>, key: Document -> string, ks: seq<string>): (gs: seq<Group>)
    ensures |gs| == |ks|
    ensures forall i :: 0 <= i < |ks| ==> gs[i] == Group(ks[i], Bucket(docs, key, ks[i]))
    decreases |ks|
  {
    if |ks| == 0 then []
    else GroupsFor(docs, key, ks[..|ks| - 1]) + [Group(ks[|ks| - 1], Bucket(docs, key, ks[|ks| - 1]))]
  }

  /** `Object.entries(acc)` after the reduce: one group per distinct key, in first-occurrence order. */
  function Entries(docs: seq<Document>, key: Document -> string): seq<Group> {
    GroupsFor(docs, key, KeysOf(docs, key))
  }

  /** `Object.entries(acc)` read off an accumulator whose keys were created in the order `order`. */
  function EntriesOf(acc: map<string, seq<Document>>, order: seq<string>): seq<Group>
    requires forall k :: k in order ==> k in acc
  {
    seq(|order|, i requires 0 <= i < |order| => Group(order[i], acc[order[i]]))
  }

  /** The documents of all groups, group after group. */
  function Flatten(gs: seq<Group>): seq<Document>
    decreases |gs|
  {
    if |gs| == 0 then [] else Flatten(gs[..|gs| - 1]) + gs[|gs| - 1].docs
  }

  /** A bucket holds exactly the documents with its key. */
  lemma BucketMembers(docs: seq<Document>, key: Document -> string, k: string)
    ensures forall d :: d in Bucket(docs, key, k) <==> d in docs && key(d) == k
  {
    FilterMembers(docs, HasKey(key, k));
  }

  /** Adding one document to the input adds it to the bucket of its own key and to no other. */
  lemma BucketExtend(s: seq<Document>, x: Document, key: Document -> string, k: string)
    ensures Bucket(s + [x], key, k) == Bucket(s, key, k) + (if key(x) == k then [x] else [])
  {
    assert (s + [x])[..|s + [x]| - 1] == s;
  }

  /** A key occurs among the keys exactly when its bucket is not empty. */
  lemma {:induction false} KeysOfBucket(docs: seq<Document>, key: Document -> string, k: string)
    ensures k in KeysOf(docs, key) <==> Bucket(docs, key, k) != []
    decreases |docs|
  {
    if |docs| > 0 {
      var s, x := docs[..|docs| - 1], docs[|docs| - 1];
      assert docs == s + [x];
      KeysOfBucket(s, key, k);
      BucketExtend(s, x, key, k);
    }
  }

  /** No key is listed twice. */
  lemma {:induction false} KeysOfDistinct(docs: seq<Document>, key: Document -> string)
    ensures Distinct(KeysOf(docs, key))
    decreases |docs|
  {
    if |docs| > 0 {
      KeysOfDistinct(docs[..|docs| - 1], key);
    }
  }

  /** The reduce of lines 49-66 of the student dashboard (and 57-73 of the professor's): one
      pass over `docs` that creates `acc[k] = []` for a key seen for the first time and pushes
      the document onto `acc[k]`. The accumulator remembers the order in which keys were
      created, as a JavaScript object does. */
  method Accumulate(docs: seq<Document>, key: Document -> string)
    returns (acc: map<string, seq<Document>>, order: seq<string>)
    ensures order == KeysOf(docs, key)
    ensures forall k :: k in acc <==> k in order
    ensures forall k :: k in acc ==> acc[k] == Bucket(docs, key, k) && acc[k] != []
    ensures EntriesOf(acc, order) == Entries(docs, key)
  {
    acc, order := map[], [];
    for i := 0 to |docs|
      invariant order == KeysOf(docs[..i], key)
      invariant forall k :: k in acc <==> k in order
      invariant forall k :: k in acc ==> acc[k] == Bucket(docs[..i], key, k)
    {
      var d := docs[i];
      var k := key(d);
      assert docs[..i + 1] == docs[..i] + [d];
      if k !in acc {
        KeysOfBucket(docs[..i], key, k);
        acc := acc[k := []];
        order := order + [k];
      }
      acc := acc[k := acc[k] + [d]];
      forall k' | k' in acc
        ensures acc[k'] == Bucket(docs[..i + 1], key, k')
      {
        BucketExtend(docs[..i], d, key, k');
      }
    }
    assert docs[..|docs|] == docs;
    forall k | k in acc
      ensures acc[k] != []
    {
      KeysOfBucket(docs, key, k);
    }
    assert forall i :: 0 <= i < |order| ==> EntriesOf(acc, order)[i] == Entries(docs, key)[i];
  }

  /** Every entry is a non-empty group holding exactly the documents with its key, in input
      order; every document's key has an entry; no key has two. */
  lemma EntriesShape(docs: seq<Document>, key: Document -> string)
    ensures Distinct(KeysOf(docs, key))
    ensures forall i :: 0 <= i < |docs| ==> key(docs[i]) in KeysOf(docs, key)
    ensures forall g :: g in Entries(docs, key) ==>
      g.key in KeysOf(docs, key) && g.docs == Bucket(docs, key, g.key) && g.docs != []
  {
    KeysOfDistinct(docs, key);
    forall i | 0 <= i < |docs|
      ensures key(docs[i]) in KeysOf(docs, key)
    {
      KeysOfBucket(docs, key, key(docs[i]));
      BucketMembers(docs, key, key(docs[i]));
      assert docs[i] in Bucket(docs, key, key(docs[i]));
    }
    forall g | g in Entries(docs, key)
      ensures g.key in KeysOf(docs, key) && g.docs == Bucket(docs, key, g.key) && g.docs != []
    {
      KeysOfBucket(docs, key, g.key);
    }
  }

  lemma {:induction false} FlattenConcat(a: seq<Group>, b: seq<Group>)
    ensures Flatten(a + b) == Flatten(a) + Flatten(b)
    decreases |b|
  {
    if |b| == 0 {
      assert a + b == a;
    } else {
      var b', last := b[..|b| - 1], b[|b| - 1];
      assert (a + b)[..|a + b| - 1] == a + b';
      assert (a + b)[|a + b| - 1] == last;
      FlattenConcat(a, b');
      calc {
        Flatten(a + b);
        Flatten(a + b') + last.docs;
        (Flatten(a) + Flatten(b')) + last.docs;
        Flatten(a) + (Flatten(b') + last.docs);
        Flatten(a) + Flatten(b);
      }
    }
  }

  /** The flattened groups for `ks` are those for all but the last key, then the last key's bucket. */
  lemma GroupsForSnoc(docs: seq<Document>, key: Document -> string, ks: seq<string>)
    requires |ks| > 0
    ensures Flatten(GroupsFor(docs, key, ks))
         == Flatten(GroupsFor(docs, key, ks[..|ks| - 1])) + Bucket(docs, key, ks[|ks| - 1])
  {
    var gs := GroupsFor(docs, key, ks);
    assert gs[..|gs| - 1] == GroupsFor(docs, key, ks[..|ks| - 1]);
  }

  /** Adding a document to the input adds it once to the flattened groups of distinct keys when
      its key is among them, and not at all otherwise. */
  lemma {:induction false} FlattenExtend(s: seq<Document>, x: Document, key: Document -> string, ks: seq<string>)
    requires Distinct(ks)
    ensures multiset(Flatten(GroupsFor(s + [x], key, ks)))
      == multiset(Flatten(GroupsFor(s, key, ks))) + (if key(x) in ks then multiset{x} else multiset{})
    decreases |ks|
  {
    if |ks| > 0 {
      var ks', k := ks[..|ks| - 1], ks[|ks| - 1];
      DistinctSnoc(ks);
      FlattenExtend(s, x, key, ks');
      GroupsForSnoc(s + [x], key, ks);
      GroupsForSnoc(s, key, ks);
      BucketExtend(s, x, key, k);
      AddStep(Flatten(GroupsFor(s + [x], key, ks')), Flatten(GroupsFor(s, key, ks')),
              Bucket(s + [x], key, k), Bucket(s, key, k), x, key(x) in ks', key(x) == k);
    }
  }

  /** A distinct list without its last key is distinct and does not hold that key; a value is
      in the list exactly when it is in the rest or is the last key. */
  lemma DistinctSnoc(ks: seq<string>)
    requires Distinct(ks) && |ks| > 0
    ensures Distinct(ks[..|ks| - 1]) && ks[|ks| - 1] !in ks[..|ks| - 1]
    ensures forall v :: v in ks <==> v in ks[..|ks| - 1] || v == ks[|ks| - 1]
  {
    assert ks == ks[..|ks| - 1] + [ks[|ks| - 1]];
  }

  /** One step of the partition count: `x` added to at most one of two parts is added once to
      their concatenation. */
  lemma AddStep<T>(a1: seq<T>, a0: seq<T>, b1: seq<T>, b0: seq<T>, x: T, inA: bool, inB: bool)
    requires multiset(a1) == multiset(a0) + (if inA then multiset{x} else multiset{})
    requires b1 == b0 + (if inB then [x] else [])
    requires !(inA && inB)
    ensures multiset(a1 + b1) == multiset(a0 + b0) + (if inA || inB then multiset{x} else multiset{})
  {
  }

  /** Grouping is a partition: the groups together hold every document exactly as often as the
      input does, so nothing is lost or duplicated and the group sizes sum to the input length. */
  lemma {:induction false} EntriesPartition(docs: seq<Document>, key: Document -> string)
    ensures multiset(Flatten(Entries(docs, key))) == multiset(docs)
    ensures |Flatten(Entries(docs, key))| == |docs|
    decreases |docs|
  {
    if |docs| > 0 {
      var s, x := docs[..|docs| - 1], docs[|docs| - 1];
      assert docs == s + [x];
      EntriesPartition(s, key);
      KeysOfDistinct(s, key);
      var ks := KeysOf(s, key);
      FlattenExtend(s, x, key, ks);
      if key(x) !in ks {
        KeysOfBucket(s, key, key(x));
        BucketExtend(s, x, key, key(x));
        assert (ks + [key(x)])[..|ks|] == ks;
        assert GroupsFor(docs, key, ks + [key(x)])[..|ks|] == GroupsFor(docs, key, ks);
      }
    }
    assert |multiset(Flatten(Entries(docs, key)))| == |multiset(docs)|;
  }

  // ----- ordering the sections: `Object.entries(acc).sort(compare)` -----

  predicate SortedByRank(gs: seq<Group>, rank: string -> nat) {
    forall i, j :: 0 <= i < j < |gs| ==> rank(gs[i].key) <= rank(gs[j].key)
  }

  predicate KeysDistinct(gs: seq<Group>) {
    forall i, j :: 0 <= i < j < |gs| ==> gs[i].key != gs[j].key
  }

  /** Puts `g` before the first group of equal or higher rank. */
  function Insert(g: Group, gs: seq<Group>, rank: string -> nat): (r: seq<Group>)
    ensures multiset(r) == multiset(gs) + multiset{g}
    decreases |gs|
  {
    if |gs| == 0 || rank(g.key) <= rank(gs[0].key) then [g] + gs
    else
      assert gs == [gs[0]] + gs[1..];
      [gs[0]] + Insert(g, gs[1..], rank)
  }

  /** Every group of the result is `g` or one of `gs`. */
  lemma InsertMember(g: Group, gs: seq<Group>, rank: string -> nat, j: int)
    requires 0 <= j < |Insert(g, gs, rank)|
    ensures Insert(g, gs, rank)[j] == g || Insert(g, gs, rank)[j] in gs
  {
    var r := Insert(g, gs, rank);
    assert r[j] in multiset(r);
  }

  lemma {:induction false} InsertSorted(g: Group, gs: seq<Group>, rank: string -> nat)
    requires SortedByRank(gs, rank)
    ensures SortedByRank(Insert(g, gs, rank), rank)
    decreases |gs|
  {
    if |gs| > 0 && rank(g.key) > rank(gs[0].key) {
      var tail := gs[1..];
      var rest := Insert(g, tail, rank);
      InsertSorted(g, tail, rank);
      forall j | 0 <= j < |rest|
        ensures rank(gs[0].key) <= rank(rest[j].key)
      {
        InsertMember(g, tail, rank, j);
        if rest[j] != g {
          var m :| 0 <= m < |tail| && tail[m] == rest[j];
          assert gs[m + 1] == rest[j];
        }
      }
      var r := [gs[0]] + rest;
      assert Insert(g, gs, rank) == r;
      forall i, j | 0 <= i < j < |r|
        ensures rank(r[i].key) <= rank(r[j].key)
      {
        assert r[j] == rest[j - 1];
        if i > 0 {
          assert r[i] == rest[i - 1];
        }
      }
    }
  }

  /** A stable sort by rank: a comparator `rank(a) - rank(b)` under `Array.prototype.sort`, which is
      stable. The result is a permutation of the input and is ordered by rank. */
  function SortByRank(gs: seq<Group>, rank: string -> nat): (r: seq<Group>)
    ensures multiset(r) == multiset(gs)
    ensures SortedByRank(r, rank)
    decreases |gs|
  {
    if |gs| == 0 then []
    else
      assert gs == [gs[0]] + gs[1..];
      InsertSorted(gs[0], SortByRank(gs[1..], rank), rank);
      Insert(gs[0], SortByRank(gs[1..], rank), rank)
  }

  /** When the comparator ranks every group alike (it returns 0), the sort leaves the order alone. */
  lemma {:induction false} SortByRankUniform(gs: seq<Group>, rank: string -> nat, c: nat)
    requires forall i :: 0 <= i < |gs| ==> rank(gs[i].key) == c
    ensures SortByRank(gs, rank) == gs
    decreases |gs|
  {
    if |gs| > 0 {
      SortByRankUniform(gs[1..], rank, c);
      assert [gs[0]] + gs[1..] == gs;
    }
  }

  lemma {:induction false} InsertKeysDistinct(g: Group, gs: seq<Group>, rank: string -> nat)
    requires KeysDistinct(gs)
    requires forall i :: 0 <= i < |gs| ==> gs[i].key != g.key
    ensures KeysDistinct(Insert(g, gs, rank))
    decreases |gs|
  {
    if |gs| == 0 || rank(g.key) <= rank(gs[0].key) {
      var r := [g] + gs;
      assert Insert(g, gs, rank) == r;
      forall i, j | 0 <= i < j < |r|
        ensures r[i].key != r[j].key
      {
        assert r[j] == gs[j - 1];
        if i > 0 {
          assert r[i] == gs[i - 1];
        }
      }
    } else {
      var tail := gs[1..];
      InsertKeysDistinct(g, tail, rank);
      var rest := Insert(g, tail, rank);
      forall j | 0 <= j < |rest|
        ensures rest[j].key != gs[0].key
      {
        InsertMember(g, tail, rank, j);
        if rest[j] != g {
          var m :| 0 <= m < |tail| && tail[m] == rest[j];
          assert gs[m + 1] == rest[j];
        }
      }
      var r := [gs[0]] + rest;
      assert Insert(g, gs, rank) == r;
      forall i, j | 0 <= i < j < |r|
        ensures r[i].key != r[j].key
      {
        assert r[j] == rest[j - 1];
        if i > 0 {
          assert r[i] == rest[i - 1];
        }
      }
    }
  }

  /** Sorting groups with distinct keys keeps the keys distinct. */
  lemma {:induction false} SortKeysDistinct(gs: seq<Group>, rank: string -> nat)
    requires KeysDistinct(gs)
    ensures KeysDistinct(SortByRank(gs, rank))
    decreases |gs|
  {
    if |gs| > 0 {
      SortKeysDistinct(gs[1..], rank);
      var r := SortByRank(gs[1..], rank);
      assert forall j :: 0 <= j < |r| ==> r[j] in multiset(gs[1..]);
      InsertKeysDistinct(gs[0], r, rank);
    }
  }

  lemma FlattenCons(g: Group, gs: seq<Group>)
    ensures Flatten([g] + gs) == g.docs + Flatten(gs)
  {
    FlattenConcat([g], gs);
    assert [g][..0] == [];
  }

  lemma {:induction false} InsertFlatten(g: Group, gs: seq<Group>, rank: string -> nat)
    ensures multiset(Flatten(Insert(g, gs, rank))) == multiset(Flatten(gs)) + multiset(g.docs)
    decreases |gs|
  {
    if |gs| == 0 || rank(g.key) <= rank(gs[0].key) {
      FlattenCons(g, gs);
    } else {
      var rest := Insert(g, gs[1..], rank);
      InsertFlatten(g, gs[1..], rank);
      FlattenCons(gs[0], rest);
      FlattenCons(gs[0], gs[1..]);
      assert [gs[0]] + gs[1..] == gs;
    }
  }

  /** The groups in sorted order hold the same documents. */
  lemma {:induction false} SortFlatten(gs: seq<Group>, rank: string -> nat)
    ensures multiset(Flatten(SortByRank(gs, rank))) == multiset(Flatten(gs))
    decreases |gs|
  {
    if |gs| > 0 {
      var head, tail := gs[0], gs[1..];
      var r := SortByRank(tail, rank);
      assert gs == [head] + tail;
      assert SortByRank(gs, rank) == Insert(head, r, rank);
      SortFlatten(tail, rank);
      InsertFlatten(head, r, rank);
      FlattenCons(head, tail);
      calc {
        multiset(Flatten(SortByRank(gs, rank)));
        multiset(Flatten(Insert(head, r, rank)));
        multiset(Flatten(r)) + multiset(head.docs);
        multiset(Flatten(tail)) + multiset(head.docs);
        multiset(head.docs + Flatten(tail));
        multiset(Flatten(gs));
      }
    }
  }

  /** The sorted sections: the groups of `Entries`, ordered by `rank`. They still partition the
      input, their keys are distinct, and every section is one of the accumulator's groups. */
  lemma SortedEntries(docs: seq<Document>, key: Document -> string, rank: string -> nat)
    ensures multiset(Flatten(SortByRank(Entries(docs, key), rank))) == multiset(docs)
    ensures KeysDistinct(SortByRank(Entries(docs, key), rank))
    ensures forall g :: g in SortByRank(Entries(docs, key), rank) ==> g in Entries(docs, key)
  {
    var es := Entries(docs, key);
    EntriesPartition(docs, key);
    SortFlatten(es, rank);
    KeysOfDistinct(docs, key);
    SortKeysDistinct(es, rank);
    forall g | g in SortByRank(es, rank)
      ensures g in es
    {
      assert g in multiset(SortByRank(es, rank));
    }
  }

  /** Each sorted section is a non-empty group holding exactly the documents of its key. */
  lemma SortedEntryShape(docs: seq<Document>, key: Document -> string, rank: string -> nat, g: Group)
    requires g in SortByRank(Entries(docs, key), rank)
    ensures g.docs != [] && g.docs == Bucket(docs, key, g.key)
    ensures forall d :: d in g.docs ==> key(d) == g.key
  {
    SortedEntries(docs, key, rank);
    EntriesShape(docs, key);
    BucketMembers(docs, key, g.key);
  }

  // ----- the reduce as written, on a JavaScript object literal -----

  /** The property names every object literal inherits from `Object.prototype`. */
  const InheritedNames: set<string> := {
    "constructor", "__proto__", "__defineGetter__", "__defineSetter__", "__lookupGetter__",
    "__lookupSetter__", "hasOwnProperty", "isPrototypeOf", "propertyIsEnumerable", "toString",
    "toLocaleString", "valueOf"
  }

  /** What `acc[k]` evaluates to on an accumulator created as `{}`: an own array, an inherited
      (truthy, non-array) member of `Object.prototype`, or `undefined`. */
  datatype Slot = Own(docs: seq<Document>) | Inherited | Absent

  function Lookup(acc: map<string, seq<Document>>, k: string): Slot {
    if k in acc then Own(acc[k]) else if k in InheritedNames then Inherited else Absent
  }

  /** One step of the reduce as written: `if (!acc[key]) acc[key] = []; acc[key].push(doc);`.
      The push throws a `TypeError` when `acc[key]` is not an array. */
  function PushAsWritten(acc: map<string, seq<Document>>, order: seq<string>, k: string, d: Document)
    : Result<(map<string, seq<Document>>, seq<string>)>
  {
    var acc1 := if Lookup(acc, k).Absent? then acc[k := []] else acc;
    var order1 := if Lookup(acc, k).Absent? then order + [k] else order;
    match Lookup(acc1, k)
    case Own(ds) => Success((acc1[k := ds + [d]], order1))
    case _ => Failure("TypeError: acc[key].push is not a function")
  }

  /** The whole reduce as written, on an object literal. */
  function ReduceAsWritten(docs: seq<Document>, key: Document -> string)
    : Result<(map<string, seq<Document>>, seq<string>)>
    decreases |docs|
  {
    if |docs| == 0 then Success((map[], []))
    else
      match ReduceAsWritten(docs[..|docs| - 1], key)
      case Failure(e) => Failure(e)
      case Success(st) => PushAsWritten(st.0, st.1, key(docs[|docs| - 1]), docs[|docs| - 1])
  }

  predicate HasInheritedKey(docs: seq<Document>, key: Document -> string) {
    exists i :: 0 <= i < |docs| && key(docs[i]) in InheritedNames
  }

  /** Without an inherited name among the keys, the reduce as written computes what `Accumulate` does. */
  lemma {:induction false} ReduceAsWrittenAgrees(docs: seq<Document>, key: Document -> string)
    requires !HasInheritedKey(docs, key)
    ensures ReduceAsWritten(docs, key).Success?
    ensures ReduceAsWritten(docs, key).value.1 == KeysOf(docs, key)
    ensures forall k :: k in ReduceAsWritten(docs, key).value.0 <==> k in KeysOf(docs, key)
    ensures forall k :: k in ReduceAsWritten(docs, key).value.0 ==>
      ReduceAsWritten(docs, key).value.0[k] == Bucket(docs, key, k)
    decreases |docs|
  {
    if |docs| > 0 {
      var s, x := docs[..|docs| - 1], docs[|docs| - 1];
      assert docs == s + [x];
      assert !HasInheritedKey(s, key) by {
        forall i | 0 <= i < |s| ensures key(s[i]) !in InheritedNames {
          assert s[i] == docs[i];
        }
      }
      assert key(x) !in InheritedNames by {
        assert x == docs[|docs| - 1];
      }
      ReduceAsWrittenAgrees(s, key);
      KeysOfBucket(s, key, key(x));
      forall k | true
        ensures Bucket(docs, key, k) == Bucket(s, key, k) + (if key(x) == k then [x] else [])
      {
        BucketExtend(s, x, key, k);
      }
    }
  }

  /** The reduce as written throws exactly when some key is an inherited property name. */
  lemma {:induction false} ReduceAsWrittenFails(docs: seq<Document>, key: Document -> string)
    ensures ReduceAsWritten(docs, key).Failure? <==> HasInheritedKey(docs, key)
    decreases |docs|
  {
    if |docs| > 0 {
      var s, x := docs[..|docs| - 1], docs[|docs| - 1];
      assert docs == s + [x];
      ReduceAsWrittenFails(s, key);
      if HasInheritedKey(s, key) {
        var i :| 0 <= i < |s| && key(s[i]) in InheritedNames;
        assert docs[i] == s[i];
      } else {
        ReduceAsWrittenAgrees(s, key);
        if key(x) in InheritedNames {
          assert docs[|docs| - 1] == x;
          var st := ReduceAsWritten(s, key).value;
          assert ReduceAsWritten(docs, key) == PushAsWritten(st.0, st.1, key(x), x);
          assert key(x) !in KeysOf(s, key) by {
            forall i | 0 <= i < |s| ensures !HasKey(key, key(x))(s[i]) {
              assert key(s[i]) !in InheritedNames;
            }
            FilterNone(s, HasKey(key, key(x)));
            KeysOfBucket(s, key, key(x));
          }
          assert key(x) !in st.0;
          assert Lookup(st.0, key(x)) == Inherited;
        } else {
          forall i | 0 <= i < |docs| ensures key(docs[i]) !in InheritedNames {
            if i < |s| { assert docs[i] == s[i]; }
          }
          ReduceAsWrittenAgrees(docs, key);
        }
      }
    }
  }
}
