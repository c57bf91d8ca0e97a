/** The canonical form of a JSON value and the event ids derived from it. */
module CanonicalJson {
  import opened Common
  import opened Json
  import opened Sorting

  function ByKey(): (Member, Member) -> bool {
    (a: Member, b: Member) => Before(a.key, b.key)
  }

  lemma ByKeyTransitive()
    ensures Transitive(ByKey())
  {
    forall a: Member, b: Member, c: Member | ByKey()(a, b) && ByKey()(b, c) ensures ByKey()(a, c) {
      BeforeTransitive(a.key, b.key, c.key);
    }
  }

  lemma SizeIsPositive(v: Value)
    ensures Size(v) > 0
  {
  }

  lemma {:induction false} InsertKeepsSize(m: Member, members: seq<Member>)
    ensures SizeOfMembers(Insert(ByKey(), m, members)) == Size(m.value) + SizeOfMembers(members)
  {
    if members != [] && !ByKey()(m, members[0]) {
      InsertKeepsSize(m, members[1..]);
    }
  }

  lemma {:induction false} SortKeepsSize(members: seq<Member>)
    ensures SizeOfMembers(Sort(ByKey(), members)) == SizeOfMembers(members)
  {
    if members != [] {
      SortKeepsSize(members[1..]);
      InsertKeepsSize(members[0], Sort(ByKey(), members[1..]));
    }
  }

  function Canonicalize(v: Value): Value
    decreases Size(v), 0
  {
    match v
    case Object(members) =>
      SortKeepsSize(members);
      Object(CanonicalizeMembers(Sort(ByKey(), members)))
    case Array(items) => Array(CanonicalizeItems(items))
    case _ => v
  }

  function CanonicalizeMembers(members: seq<Member>): (r: seq<Member>)
    ensures |r| == |members|
    decreases SizeOfMembers(members), 1 + |members|
  {
    if members == [] then []
    else
      SizeIsPositive(members[0].value);
      [Member(members[0].key, Canonicalize(members[0].value))] + CanonicalizeMembers(members[1..])
  }

  function CanonicalizeItems(items: seq<Value>): (r: seq<Value>)
    ensures |r| == |items|
    decreases SizeOfItems(items), 1 + |items|
  {
    if items == [] then []
    else
      SizeIsPositive(items[0]);
      [Canonicalize(items[0])] + CanonicalizeItems(items[1..])
  }

  // ----- what it means -----

  ghost predicate DistinctKeys(members: seq<Member>) {
    forall i, j :: 0 <= i < j < |members| ==> members[i].key != members[j].key
  }

  /** No object has a key twice, as no map of keys to values has. */
  ghost predicate WellFormed(v: Value) {
    match v
    case Object(members) => DistinctKeys(members) && forall i :: 0 <= i < |members| ==> WellFormed(members[i].value)
    case Array(items) => forall i :: 0 <= i < |items| ==> WellFormed(items[i])
    case _ => true
  }

  /** Equal but for the order of the members of objects, at every depth. */
  ghost predicate SameUpToOrder(a: Value, b: Value)
    decreases Size(a)
  {
    match (a, b)
    case (Object(ms), Object(ns)) =>
      forall key :: Find(ms, key).Some? == Find(ns, key).Some?
        && (Find(ms, key).Some? ==>
              (FoundIsPart(ms, key); SameUpToOrder(Find(ms, key).value, Find(ns, key).value)))
    case (Array(xs), Array(ys)) =>
      |xs| == |ys| && forall i :: 0 <= i < |xs| ==> (ItemIsPart(xs, i); SameUpToOrder(xs[i], ys[i]))
    case _ => a == b
  }

  lemma {:induction false} FindFirst(members: seq<Member>, key: string) returns (i: nat)
    requires Find(members, key).Some?
    ensures i < |members| && members[i] == Member(key, Find(members, key).value)
  {
    if members[0].key == key {
      i := 0;
    } else {
      var j := FindFirst(members[1..], key);
      i := j + 1;
    }
  }

  lemma {:induction false} FindAt(members: seq<Member>, i: nat)
    requires DistinctKeys(members) && i < |members|
    ensures Find(members, members[i].key) == Some(members[i].value)
  {
    if i > 0 {
      FindAt(members[1..], i - 1);
    }
  }

  lemma {:induction false} CanonicalizeMembersAt(members: seq<Member>, i: nat)
    requires i < |members|
    ensures CanonicalizeMembers(members)[i] == Member(members[i].key, Canonicalize(members[i].value))
  {
    if i > 0 {
      CanonicalizeMembersAt(members[1..], i - 1);
    }
  }

  lemma {:induction false} CanonicalizeItemsAt(items: seq<Value>, i: nat)
    requires i < |items|
    ensures CanonicalizeItems(items)[i] == Canonicalize(items[i])
  {
    if i > 0 {
      CanonicalizeItemsAt(items[1..], i - 1);
    }
  }

  /** The members of a canonical object: in strict key order, with the values of the original canonicalized. */
  lemma CanonicalMembers(members: seq<Member>)
    requires DistinctKeys(members)
    ensures var canonical := CanonicalizeMembers(Sort(ByKey(), members));
            && Ordered(ByKey(), canonical) && DistinctKeys(canonical)
            && forall key :: Find(canonical, key) ==
                 if Find(members, key).Some? then Some(Canonicalize(Find(members, key).value)) else None
  {
    var sorted := Sort(ByKey(), members);
    var canonical := CanonicalizeMembers(sorted);
    forall i, j | 0 <= i < j < |members| ensures ByKey()(members[i], members[j]) || ByKey()(members[j], members[i]) {
      BeforeTotal(members[i].key, members[j].key);
    }
    ByKeyTransitive();
    SortOrders(ByKey(), members);
    SortPermutes(ByKey(), members);
    forall i, j | 0 <= i < j < |canonical|
      ensures ByKey()(canonical[i], canonical[j]) && canonical[i].key != canonical[j].key
    {
      CanonicalizeMembersAt(sorted, i);
      CanonicalizeMembersAt(sorted, j);
      assert ByKey()(sorted[i], sorted[j]);
      BeforeIrreflexive(canonical[i].key);
    }
    forall key
      ensures Find(canonical, key) == if Find(members, key).Some? then Some(Canonicalize(Find(members, key).value))
              else None
    {
      if Find(members, key).Some? {
        var i := FindFirst(members, key);
        assert members[i] in multiset(sorted);
        var j :| 0 <= j < |sorted| && sorted[j] == members[i];
        CanonicalizeMembersAt(sorted, j);
        FindAt(canonical, j);
      } else if Find(canonical, key).Some? {
        var j := FindFirst(canonical, key);
        CanonicalizeMembersAt(sorted, j);
        assert sorted[j] in multiset(sorted);
        var i :| 0 <= i < |members| && members[i] == sorted[j];
        FindAt(members, i);
      }
    }
  }

  /** The keys of a canonical object ascend by the first character in which they differ. */
  lemma CanonicalKeysAscend(members: seq<Member>, i: nat, j: nat)
    requires DistinctKeys(members) && Canonicalize(Object(members)).Object?
    requires i < j < |Canonicalize(Object(members)).members|
    ensures var canonical := Canonicalize(Object(members)).members;
            exists k: nat :: DifferAt(canonical[i].key, canonical[j].key, k)
  {
    CanonicalMembers(members);
    var canonical := CanonicalizeMembers(Sort(ByKey(), members));
    assert ByKey()(canonical[i], canonical[j]);
    BeforeExactlyWhen(canonical[i].key, canonical[j].key);
  }

  /** Two objects in strict key order with the same value for every key are the same list. */
  lemma {:induction false} OrderedMembersAreUnique(ms: seq<Member>, ns: seq<Member>)
    requires Ordered(ByKey(), ms) && Ordered(ByKey(), ns)
    requires forall key :: Find(ms, key) == Find(ns, key)
    ensures ms == ns
  {
    var probe := if ms == [] && ns != [] then ns[0].key else "";
    assert Find(ms, probe) == Find(ns, probe);
    if ms != [] {
      assert Find(ms, ms[0].key).Some?;
      var i := FindFirst(ns, ms[0].key);
      var j := FindFirst(ms, ns[0].key);
      if i > 0 {
        BeforeTransitive(ms[0].key, ns[0].key, ms[0].key);
      }
      BeforeIrreflexive(ms[0].key);
      assert ms[0] == ns[0];
      forall key ensures Find(ms[1..], key) == Find(ns[1..], key) {
        if key == ms[0].key {
          HeadKeyIsGone(ms);
          HeadKeyIsGone(ns);
        } else {
          assert Find(ms, key) == Find(ns, key);
        }
      }
      OrderedMembersAreUnique(ms[1..], ns[1..]);
      assert ms == [ms[0]] + ms[1..] && ns == [ns[0]] + ns[1..];
    }
  }

  lemma HeadKeyIsGone(ms: seq<Member>)
    requires Ordered(ByKey(), ms) && ms != []
    ensures Find(ms[1..], ms[0].key) == None
  {
    if Find(ms[1..], ms[0].key).Some? {
      var i := FindFirst(ms[1..], ms[0].key);
      assert ByKey()(ms[0], ms[i + 1]);
      BeforeIrreflexive(ms[0].key);
    }
  }

  /** Canonical forms are equal exactly for values that differ by key order only. */
  lemma {:induction false} CanonicalFormsDecide(a: Value, b: Value)
    requires WellFormed(a) && WellFormed(b)
    ensures Canonicalize(a) == Canonicalize(b) <==> SameUpToOrder(a, b)
    decreases Size(a), 0
  {
    match (a, b)
    case (Object(ms), Object(ns)) =>
      var ms', ns' := CanonicalizeMembers(Sort(ByKey(), ms)), CanonicalizeMembers(Sort(ByKey(), ns));
      CanonicalMembers(ms);
      CanonicalMembers(ns);
      forall key | Find(ms, key).Some? && Find(ns, key).Some?
        ensures Find(ms', key) == Find(ns', key) <==>
                SameUpToOrder(Find(ms, key).value, Find(ns, key).value)
      {
        var i := FindFirst(ms, key);
        var j := FindFirst(ns, key);
        FoundIsPart(ms, key);
        CanonicalFormsDecide(Find(ms, key).value, Find(ns, key).value);
      }
      if SameUpToOrder(a, b) {
        OrderedMembersAreUnique(ms', ns');
      } else {
        var key :| !(Find(ms, key).Some? == Find(ns, key).Some?
                     && (Find(ms, key).Some? ==>
                           SameUpToOrder(Find(ms, key).value, Find(ns, key).value)));
        assert Find(ms', key) != Find(ns', key);
      }
    case (Array(xs), Array(ys)) =>
      CanonicalItemsDecide(xs, ys);
    case _ =>
  }

  lemma {:induction false} CanonicalItemsDecide(xs: seq<Value>, ys: seq<Value>)
    requires WellFormed(Array(xs)) && WellFormed(Array(ys))
    ensures CanonicalizeItems(xs) == CanonicalizeItems(ys) <==> SameUpToOrder(Array(xs), Array(ys))
    decreases SizeOfItems(xs), 1
  {
    if |xs| == |ys| {
      forall i | 0 <= i < |xs|
        ensures CanonicalizeItems(xs)[i] == CanonicalizeItems(ys)[i] <==> SameUpToOrder(xs[i], ys[i])
      {
        ItemIsPart(xs, i);
        CanonicalizeItemsAt(xs, i);
        CanonicalizeItemsAt(ys, i);
        CanonicalFormsDecide(xs[i], ys[i]);
      }
    }
  }

  /** A canonical form is well formed and differs from its original by key order only. */
  lemma {:induction false} CanonicalFormIsSame(v: Value)
    requires WellFormed(v)
    ensures WellFormed(Canonicalize(v)) && SameUpToOrder(v, Canonicalize(v))
    decreases Size(v)
  {
    match v
    case Object(members) =>
      var canonical := CanonicalizeMembers(Sort(ByKey(), members));
      CanonicalMembers(members);
      forall key | Find(members, key).Some?
        ensures WellFormed(Canonicalize(Find(members, key).value))
        ensures SameUpToOrder(Find(members, key).value, Find(canonical, key).value)
      {
        var i := FindFirst(members, key);
        FoundIsPart(members, key);
        CanonicalFormIsSame(Find(members, key).value);
      }
      forall j | 0 <= j < |canonical| ensures WellFormed(canonical[j].value) {
        FindAt(canonical, j);
      }
    case Array(items) =>
      forall i | 0 <= i < |items|
        ensures WellFormed(CanonicalizeItems(items)[i])
        ensures SameUpToOrder(items[i], CanonicalizeItems(items)[i])
      {
        ItemIsPart(items, i);
        CanonicalizeItemsAt(items, i);
        CanonicalFormIsSame(items[i]);
      }
    case _ =>
  }

  lemma CanonicalizeIsIdempotent(v: Value)
    requires WellFormed(v)
    ensures Canonicalize(Canonicalize(v)) == Canonicalize(v)
  {
    CanonicalFormIsSame(v);
    CanonicalFormsDecide(v, Canonicalize(v));
  }

  // ----- event ids -----

  const HEX := "0123456789abcdef"

  function Hex(digest: seq<Byte>): string {
    if digest == [] then "" else [HEX[digest[0] / 16], HEX[digest[0] % 16]] + Hex(digest[1..])
  }

  lemma {:induction false} HexAppend(digest: seq<Byte>, b: Byte)
    ensures Hex(digest + [b]) == Hex(digest) + [HEX[b / 16], HEX[b % 16]]
  {
    if digest == [] {
      assert digest + [b] == [b];
    } else {
      assert (digest + [b])[1..] == digest[1..] + [b];
      HexAppend(digest[1..], b);
    }
  }

  lemma HexDigitsDiffer(i: nat, j: nat)
    requires i < 16 && j < 16 && HEX[i] == HEX[j]
    ensures i == j
  {
  }

  lemma {:induction false} HexIsInjective(a: seq<Byte>, b: seq<Byte>)
    requires Hex(a) == Hex(b)
    ensures a == b
  {
    if a != [] && b != [] {
      assert Hex(a)[0] == HEX[a[0] / 16] && Hex(a)[1] == HEX[a[0] % 16];
      assert Hex(b)[0] == HEX[b[0] / 16] && Hex(b)[1] == HEX[b[0] % 16];
      HexDigitsDiffer(a[0] / 16, b[0] / 16);
      HexDigitsDiffer(a[0] % 16, b[0] % 16);
      assert Hex(a[1..]) == Hex(a)[2..] && Hex(b[1..]) == Hex(b)[2..];
      HexIsInjective(a[1..], b[1..]);
      assert a == [a[0]] + a[1..] && b == [b[0]] + b[1..];
    }
  }

  /** What a lower-case hexadecimal digit stands for. */
  function DigitValue(c: char): Option<nat> {
    if '0' <= c <= '9' then Some(c as int - '0' as int)
    else if 'a' <= c <= 'f' then Some(c as int - 'a' as int + 10)
    else None
  }

  lemma DigitIsReadBack(n: nat)
    requires n < 16
    ensures DigitValue(HEX[n]) == Some(n)
  {
  }

  /** Every byte is two lower-case hexadecimal digits, the higher one first. */
  lemma {:induction false} HexReadsBack(digest: seq<Byte>, i: nat)
    requires i < |digest|
    ensures |Hex(digest)| == 2 * |digest|
    ensures DigitValue(Hex(digest)[2 * i]).Some? && DigitValue(Hex(digest)[2 * i + 1]).Some?
    ensures 16 * DigitValue(Hex(digest)[2 * i]).value + DigitValue(Hex(digest)[2 * i + 1]).value == digest[i]
  {
    HexLength(digest);
    if i == 0 {
      DigitIsReadBack(digest[0] / 16);
      DigitIsReadBack(digest[0] % 16);
    } else {
      HexReadsBack(digest[1..], i - 1);
      assert Hex(digest)[2 * i] == Hex(digest[1..])[2 * (i - 1)];
      assert Hex(digest)[2 * i + 1] == Hex(digest[1..])[2 * (i - 1) + 1];
    }
  }

  /** `hash` stands for encoding a value and hashing the encoding. */
  method PayloadDigest(data: Value, hash: Value -> seq<Byte>) returns (discriminator: string)
    ensures discriminator == Hex(hash(Canonicalize(data)))
  {
    var digest := hash(Canonicalize(data));
    discriminator := "";
    for i := 0 to |digest|
      invariant discriminator == Hex(digest[..i])
    {
      HexAppend(digest[..i], digest[i]);
      assert digest[..i + 1] == digest[..i] + [digest[i]];
      discriminator := discriminator + [HEX[digest[i] / 16]];
      discriminator := discriminator + [HEX[digest[i] % 16]];
    }
    assert digest[..|digest|] == digest;
  }

  function Envelope(adapter: string, data: Value): Value {
    Object([Member("adapter", String(adapter)), Member("event", data)])
  }

  /** The readable part of an event id; the time is given by its decimal text. */
  function IdPrefix(kind: string, detailType: string, time: string): string {
    "onebot11:" + kind + ":" + detailType + ":" + time + ":"
  }

  /** An example of it. */
  lemma PrefixOfANotice()
    ensures IdPrefix("notice", "group_ban", "1700000000") == "onebot11:notice:group_ban:1700000000:"
  {
  }

  function DerivedEventId(adapter: string, kind: string, time: string, data: Value, detailType: string,
      hash: Value -> seq<Byte>): string
  {
    IdPrefix(kind, detailType, time) + Hex(hash(Canonicalize(Envelope(adapter, data))))
  }

  lemma EnvelopesSame(adapterA: string, a: Value, adapterB: string, b: Value)
    ensures SameUpToOrder(Envelope(adapterA, a), Envelope(adapterB, b)) <==> adapterA == adapterB && SameUpToOrder(a, b)
  {
    EnvelopeFields(adapterA, a);
    EnvelopeFields(adapterB, b);
    if SameUpToOrder(Envelope(adapterA, a), Envelope(adapterB, b)) {
      assert Find(Envelope(adapterA, a).members, "adapter").Some? && Find(Envelope(adapterA, a).members, "event").Some?;
    }
  }

  lemma EnvelopeFields(adapter: string, data: Value)
    ensures forall key :: Find(Envelope(adapter, data).members, key) ==
              if key == "adapter" then Some(String(adapter)) else if key == "event" then Some(data) else None
  {
    var members := Envelope(adapter, data).members;
    var rest := [Member("event", data)];
    assert members[1..] == rest && rest[1..] == [];
    forall key
      ensures Find(members, key) ==
              if key == "adapter" then Some(String(adapter)) else if key == "event" then Some(data) else None
    {
      assert Find(rest[1..], key) == None;
      assert Find(rest, key) == if key == "event" then Some(data) else None;
    }
  }

  lemma {:induction false} HexLength(digest: seq<Byte>)
    ensures |Hex(digest)| == 2 * |digest|
  {
    if digest != [] {
      HexLength(digest[1..]);
    }
  }

  lemma SameLengthTails(a: string, p: string, b: string, q: string)
    requires a + p == b + q && |p| == |q|
    ensures a == b && p == q
  {
    assert (a + p)[..|a|] == a && (b + q)[..|b|] == b;
    assert (a + p)[|a|..] == p && (b + q)[|b|..] == q;
  }

  /** What an id is derived from. */
  datatype EventSource = EventSource(adapter: string, kind: string, time: string, data: Value, detailType: string)

  function IdOf(e: EventSource, hash: Value -> seq<Byte>): string {
    DerivedEventId(e.adapter, e.kind, e.time, e.data, e.detailType, hash)
  }

  function CanonicalEnvelope(e: EventSource): Value {
    Canonicalize(Envelope(e.adapter, e.data))
  }

  /** With digests of one length that do not collide on the two events, their ids are equal exactly when their readable
      parts are, and they come from the same adapter and differ by key order only.  So equal ids mean the same content,
      whatever the kinds, detail types and times. */
  lemma EventIdsFollowContent(a: EventSource, b: EventSource, hash: Value -> seq<Byte>)
    requires WellFormed(a.data) && WellFormed(b.data)
    requires |hash(CanonicalEnvelope(a))| == |hash(CanonicalEnvelope(b))|
    requires hash(CanonicalEnvelope(a)) == hash(CanonicalEnvelope(b)) ==> CanonicalEnvelope(a) == CanonicalEnvelope(b)
    ensures IdOf(a, hash) == IdOf(b, hash) <==>
              && IdPrefix(a.kind, a.detailType, a.time) == IdPrefix(b.kind, b.detailType, b.time)
              && a.adapter == b.adapter && SameUpToOrder(a.data, b.data)
  {
    CanonicalFormsDecide(Envelope(a.adapter, a.data), Envelope(b.adapter, b.data));
    EnvelopesSame(a.adapter, a.data, b.adapter, b.data);
    var p, q := hash(CanonicalEnvelope(a)), hash(CanonicalEnvelope(b));
    HexLength(p);
    HexLength(q);
    if IdOf(a, hash) == IdOf(b, hash) {
      SameLengthTails(IdPrefix(a.kind, a.detailType, a.time), Hex(p), IdPrefix(b.kind, b.detailType, b.time), Hex(q));
      HexIsInjective(p, q);
    }
  }
}
