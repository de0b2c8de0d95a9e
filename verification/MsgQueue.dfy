/**
 System V message queues (api/src/syscall/ipc/msg.rs): the per-type buckets of a queue, the searches
 over them, msgsnd and msgrcv, and the manager with IPC_RMID.

 The code keeps one bucket of messages per type. The reference is a single sequence ordered by type
 and, within a type, by arrival.
 */
module MsgQueue {

  const MSGMNI := 32000
  const MSGMNB := 16384
  const MSGMAX := 8192
  const WORD := 0x1_0000_0000_0000_0000
  const INT64_MIN := -0x8000_0000_0000_0000
  const IPC_PRIVATE := 0

  type Byte = bv8

  datatype Option<T> = None | Some(value: T)
  datatype Message = Message(mtype: nat, data: seq<Byte>)
  type Buckets = map<nat, seq<Message>>

  // --------------------------------------------------------- the order in which a BTreeMap iterates

  ghost predicate IsLeast(keys: set<nat>, k: nat)
  {
    k in keys && forall j :: j in keys ==> k <= j
  }

  lemma {:induction false} LeastExists(keys: set<nat>, x: nat)
    requires x in keys
    ensures exists k :: IsLeast(keys, k)
  {
    if y :| y in keys && y < x {
      LeastExists(keys, y);
    } else {
      assert IsLeast(keys, x);
    }
  }

  lemma NonemptyHasLeast(keys: set<nat>)
    requires keys != {}
    ensures exists k :: IsLeast(keys, k)
  {
    var x :| x in keys;
    LeastExists(keys, x);
  }

  function Least(keys: set<nat>): (k: nat)
    requires keys != {}
    ensures k in keys && forall j :: j in keys ==> k <= j
  {
    NonemptyHasLeast(keys);
    var k :| k in keys && forall j :: j in keys ==> k <= j;
    k
  }

  function SortedKeys(keys: set<nat>): (r: seq<nat>)
    ensures forall i :: 0 <= i < |r| ==> r[i] in keys
    ensures forall k :: k in keys ==> k in r
  {
    if keys == {} then []
    else
      var k := Least(keys);
      var rest := SortedKeys(keys - {k});
      assert forall j :: j in keys ==> j == k || j in keys - {k};
      [k] + rest
  }

  lemma {:induction false} KeysIncrease(keys: set<nat>)
    ensures Increasing(SortedKeys(keys))
  {
    if keys != {} { KeysIncrease(keys - {Least(keys)}); }
  }

  ghost predicate Increasing(keys: seq<nat>)
  {
    forall i, j :: 0 <= i < j < |keys| ==> keys[i] < keys[j]
  }

  lemma EarlierKey(keys: set<nat>, i: nat, j: nat)
    requires i < j < |SortedKeys(keys)|
    ensures SortedKeys(keys)[i] < SortedKeys(keys)[j]
  {
    KeysIncrease(keys);
  }

  // --------------------------------------------------------------------------- the reference order

  ghost function OfType(q: seq<Message>, t: nat): seq<Message>
  {
    if q == [] then []
    else (if q[0].mtype == t then [q[0]] else []) + OfType(q[1..], t)
  }

  ghost predicate Ordered(q: seq<Message>)
  {
    forall i, j :: 0 <= i < j < |q| ==> q[i].mtype <= q[j].mtype
  }

  ghost function Bytes(q: seq<Message>): nat
  {
    if q == [] then 0 else |q[0].data| + Bytes(q[1..])
  }

  ghost function Flat(keys: seq<nat>, m: Buckets): seq<Message>
    requires forall i :: 0 <= i < |keys| ==> keys[i] in m
  {
    if keys == [] then [] else m[keys[0]] + Flat(keys[1..], m)
  }

  /** All messages, by type and then by arrival. */
  ghost function Flatten(m: Buckets): seq<Message> { Flat(SortedKeys(m.Keys), m) }

  ghost predicate Bucketed(m: Buckets)
  {
    forall k :: k in m ==> m[k] != [] && forall i :: 0 <= i < |m[k]| ==> m[k][i].mtype == k
  }

  ghost function Bucket(m: Buckets, t: nat): seq<Message> { if t in m then m[t] else [] }

  lemma {:induction false} OfTypeConcat(a: seq<Message>, b: seq<Message>, t: nat)
    ensures OfType(a + b, t) == OfType(a, t) + OfType(b, t)
  {
    if a == [] {
      assert a + b == b;
    } else {
      assert (a + b)[1..] == a[1..] + b;
      OfTypeConcat(a[1..], b, t);
      Regroup(if a[0].mtype == t then [a[0]] else [], OfType(a[1..], t), OfType(b, t));
    }
  }

  lemma Regroup(a: seq<Message>, b: seq<Message>, c: seq<Message>)
    ensures a + (b + c) == (a + b) + c
  {
  }

  lemma {:induction false} OfTypeUniform(a: seq<Message>, k: nat, t: nat)
    requires forall i :: 0 <= i < |a| ==> a[i].mtype == k
    ensures OfType(a, t) == if t == k then a else []
  {
    if a != [] { OfTypeUniform(a[1..], k, t); }
  }

  lemma {:induction false} BytesConcat(a: seq<Message>, b: seq<Message>)
    ensures Bytes(a + b) == Bytes(a) + Bytes(b)
  {
    if a == [] {
      assert a + b == b;
    } else {
      assert (a + b)[1..] == a[1..] + b;
      BytesConcat(a[1..], b);
    }
  }

  lemma {:induction false} FlatOfType(keys: seq<nat>, m: Buckets, t: nat)
    requires Bucketed(m) && Increasing(keys) && forall i :: 0 <= i < |keys| ==> keys[i] in m
    ensures OfType(Flat(keys, m), t) == if t in keys then m[t] else []
  {
    if keys != [] {
      FlatOfType(keys[1..], m, t);
      OfTypeConcat(m[keys[0]], Flat(keys[1..], m), t);
      OfTypeUniform(m[keys[0]], keys[0], t);
      assert t in keys <==> t == keys[0] || t in keys[1..];
    }
  }

  lemma {:induction false} FlatOrdered(keys: seq<nat>, m: Buckets)
    requires Bucketed(m) && Increasing(keys) && forall i :: 0 <= i < |keys| ==> keys[i] in m
    ensures Ordered(Flat(keys, m))
    ensures forall x :: x in Flat(keys, m) ==> x.mtype in keys
  {
    if keys != [] {
      FlatOrdered(keys[1..], m);
      var a, b := m[keys[0]], Flat(keys[1..], m);
      var q: seq<Message> := a + b;
      forall i, j | 0 <= i < j < |q| ensures q[i].mtype <= q[j].mtype {
        if i < |a| <= j { assert q[j] in b; }
      }
    }
  }

  /** The flattening holds exactly the buckets, in order of type. */
  lemma FlattenIs(m: Buckets, t: nat)
    requires Bucketed(m)
    ensures Ordered(Flatten(m)) && OfType(Flatten(m), t) == Bucket(m, t)
  {
    KeysIncrease(m.Keys);
    FlatOrdered(SortedKeys(m.Keys), m);
    FlatOfType(SortedKeys(m.Keys), m, t);
  }

  lemma {:induction false} TypePresent(q: seq<Message>, x: Message)
    requires x in q
    ensures x in OfType(q, x.mtype)
  {
    if q[0] != x { TypePresent(q[1..], x); }
  }

  lemma {:induction false} TypeKept(q: seq<Message>, t: nat, x: Message)
    requires x in OfType(q, t)
    ensures x in q && x.mtype == t
  {
    if x in OfType(q[1..], t) { TypeKept(q[1..], t, x); }
  }

  ghost predicate SameByType(a: seq<Message>, b: seq<Message>)
  {
    forall t: nat :: OfType(a, t) == OfType(b, t)
  }

  lemma SameHead(a: seq<Message>, b: seq<Message>)
    requires Ordered(a) && Ordered(b) && SameByType(a, b) && a != []
    ensures b != [] && b[0].mtype <= a[0].mtype
  {
    TypePresent(a, a[0]);
    assert a[0] in OfType(b, a[0].mtype);
    TypeKept(b, a[0].mtype, a[0]);
    var i :| 0 <= i < |b| && b[i] == a[0];
  }

  /** Order by type together with the order within each type leaves no choice. */
  lemma {:induction false} OrderUnique(a: seq<Message>, b: seq<Message>)
    requires Ordered(a) && Ordered(b) && SameByType(a, b)
    ensures a == b
  {
    if a == [] && b == [] { return; }
    if a == [] { SameHead(b, a); return; }
    SameHead(a, b);
    SameHead(b, a);
    assert OfType(a, a[0].mtype)[0] == a[0] && OfType(b, a[0].mtype)[0] == b[0];
    forall t: nat ensures OfType(a[1..], t) == OfType(b[1..], t) {
      assert OfType(a, t) == OfType(b, t);
      var head := if a[0].mtype == t then [a[0]] else [];
      assert OfType(a[1..], t) == OfType(a, t)[|head|..];
      assert OfType(b[1..], t) == OfType(b, t)[|head|..];
    }
    OrderUnique(a[1..], b[1..]);
  }

  // ------------------------------------------------------------------- sending, on the reference

  /** Behind every message of the same or a smaller type. */
  ghost function Insert(q: seq<Message>, x: Message): seq<Message>
  {
    if q == [] then [x]
    else if q[0].mtype <= x.mtype then [q[0]] + Insert(q[1..], x)
    else [x] + q
  }

  lemma {:induction false} InsertMembers(q: seq<Message>, x: Message, y: Message)
    requires y in Insert(q, x)
    ensures y == x || y in q
  {
    if q != [] && q[0].mtype <= x.mtype && y != q[0] { InsertMembers(q[1..], x, y); }
  }

  lemma {:induction false} InsertOrdered(q: seq<Message>, x: Message)
    requires Ordered(q)
    ensures Ordered(Insert(q, x))
  {
    if q != [] && q[0].mtype <= x.mtype {
      InsertOrdered(q[1..], x);
      var r := Insert(q[1..], x);
      forall i | 0 <= i < |r| ensures q[0].mtype <= r[i].mtype { InsertMembers(q[1..], x, r[i]); }
    }
  }

  lemma {:induction false} InsertOfType(q: seq<Message>, x: Message, t: nat)
    requires Ordered(q)
    ensures OfType(Insert(q, x), t) == OfType(q, t) + if t == x.mtype then [x] else []
  {
    if q == [] {
    } else if q[0].mtype <= x.mtype {
      InsertOfType(q[1..], x, t);
      Regroup(if q[0].mtype == t then [q[0]] else [], OfType(q[1..], t), if t == x.mtype then [x] else []);
    } else {
      NoneSmaller(q, x.mtype);
      assert ([x] + q)[1..] == q;
    }
  }

  lemma {:induction false} NoneSmaller(q: seq<Message>, t: nat)
    requires Ordered(q) && (q != [] ==> t < q[0].mtype)
    ensures OfType(q, t) == []
  {
    if q != [] { NoneSmaller(q[1..], t); }
  }

  lemma {:induction false} InsertSizes(q: seq<Message>, x: Message)
    ensures |Insert(q, x)| == |q| + 1 && Bytes(Insert(q, x)) == Bytes(q) + |x.data|
  {
    if q != [] && q[0].mtype <= x.mtype {
      InsertSizes(q[1..], x);
      assert Insert(q, x)[1..] == Insert(q[1..], x);
    } else {
      assert ([x] + q)[1..] == q;
    }
  }

  /** Appending to the bucket of the type is inserting in the reference order. */
  lemma PushRefines(m: Buckets, x: Message)
    requires Bucketed(m)
    ensures Bucketed(m[x.mtype := Bucket(m, x.mtype) + [x]])
    ensures Flatten(m[x.mtype := Bucket(m, x.mtype) + [x]]) == Insert(Flatten(m), x)
  {
    var n := m[x.mtype := Bucket(m, x.mtype) + [x]];
    assert Bucketed(n);
    FlattenIs(m, 0);
    FlattenIs(n, 0);
    InsertOrdered(Flatten(m), x);
    forall t: nat ensures OfType(Flatten(n), t) == OfType(Insert(Flatten(m), x), t) {
      FlattenIs(m, t);
      FlattenIs(n, t);
      InsertOfType(Flatten(m), x, t);
    }
    OrderUnique(Flatten(n), Insert(Flatten(m), x));
  }

  // ----------------------------------------------------------------- receiving, on the reference

  /** What a receiver asks for. */
  datatype Want = AnyType | Exactly(t: nat) | Except(t: nat) | AtMost(bound: int)

  predicate Wants(w: Want, t: nat)
  {
    match w
    case AnyType => true
    case Exactly(u) => t == u
    case Except(u) => t != u
    case AtMost(bound) => t <= bound
  }

  /** The first message, in the reference order, that the receiver wants. */
  ghost function First(q: seq<Message>, w: Want): (r: Option<nat>)
    ensures r.Some? ==> r.value < |q|
  {
    if q == [] then None
    else if Wants(w, q[0].mtype) then Some(0)
    else match First(q[1..], w) case None => None case Some(i) => Some(i + 1)
  }

  lemma {:induction false} FirstIs(q: seq<Message>, w: Want)
    ensures First(q, w) == None <==> forall i :: 0 <= i < |q| ==> !Wants(w, q[i].mtype)
    ensures First(q, w).Some? ==>
      var i := First(q, w).value;
      i < |q| && Wants(w, q[i].mtype) && forall j :: 0 <= j < i ==> !Wants(w, q[j].mtype)
  {
    if q != [] && !Wants(w, q[0].mtype) {
      FirstIs(q[1..], w);
      forall i | 0 < i < |q| ensures q[i] == q[1..][i - 1] {}
    }
  }

  lemma {:induction false} FirstSkips(a: seq<Message>, b: seq<Message>, w: Want)
    requires forall i :: 0 <= i < |a| ==> !Wants(w, a[i].mtype)
    ensures First(a + b, w) == match First(b, w) case None => None case Some(i) => Some(|a| + i)
  {
    if a == [] {
      assert a + b == b;
    } else {
      assert (a + b)[1..] == a[1..] + b;
      FirstSkips(a[1..], b, w);
    }
  }

  ghost function Without(q: seq<Message>, i: nat): seq<Message>
    requires i < |q|
  {
    q[..i] + q[i + 1..]
  }

  lemma {:induction false} OfTypeAbsent(q: seq<Message>, t: nat)
    requires forall i :: 0 <= i < |q| ==> q[i].mtype != t
    ensures OfType(q, t) == []
  {
    if q != [] { OfTypeAbsent(q[1..], t); }
  }

  /** Taking out the first message of a type takes the head off that type and no other. */
  lemma WithoutOfType(q: seq<Message>, i: nat, t: nat)
    requires i < |q| && forall j :: 0 <= j < i ==> q[j].mtype != q[i].mtype
    ensures OfType(q, t) == (if t == q[i].mtype then [q[i]] else []) + OfType(Without(q, i), t)
  {
    assert q == q[..i] + ([q[i]] + q[i + 1..]);
    OfTypeConcat(q[..i], [q[i]] + q[i + 1..], t);
    OfTypeConcat([q[i]], q[i + 1..], t);
    OfTypeConcat(q[..i], q[i + 1..], t);
    if t == q[i].mtype { OfTypeAbsent(q[..i], t); }
    OfTypeUniform([q[i]], q[i].mtype, t);
  }

  lemma WithoutSizes(q: seq<Message>, i: nat)
    requires i < |q|
    ensures |Without(q, i)| == |q| - 1 && Bytes(Without(q, i)) + |q[i].data| == Bytes(q)
  {
    assert q == q[..i] + ([q[i]] + q[i + 1..]);
    BytesConcat(q[..i], [q[i]] + q[i + 1..]);
    BytesConcat([q[i]], q[i + 1..]);
    BytesConcat(q[..i], q[i + 1..]);
    assert Bytes([q[i]]) == |q[i].data| + Bytes([q[i]][1..]);
  }

  lemma WithoutOrdered(q: seq<Message>, i: nat)
    requires Ordered(q) && i < |q|
    ensures Ordered(Without(q, i))
  {
    var r := Without(q, i);
    forall a, b | 0 <= a < b < |r| ensures r[a].mtype <= r[b].mtype {
      assert r[a] == q[if a < i then a else a + 1] && r[b] == q[if b < i then b else b + 1];
    }
  }

  /** One message leaves the bucket of its type; an emptied bucket goes with it. */
  ghost function TakenOut(m: Buckets, t: nat, index: nat): Buckets
    requires t in m && index < |m[t]|
  {
    if |m[t]| == 1 then m - {t} else m[t := m[t][..index] + m[t][index + 1..]]
  }

  ghost function Popped(m: Buckets, t: nat): Buckets
    requires t in m && m[t] != []
  {
    TakenOut(m, t, 0)
  }

  lemma PopBuckets(m: Buckets, k: nat, t: nat)
    requires Bucketed(m) && k in m
    ensures Bucketed(Popped(m, k))
    ensures Bucket(m, t) == (if t == k then [m[k][0]] else []) + Bucket(Popped(m, k), t)
  {
  }

  /** The message found in the reference order is the head of its bucket. */
  lemma FoundHead(m: Buckets, w: Want)
    requires Bucketed(m) && First(Flatten(m), w).Some?
    ensures var i := First(Flatten(m), w).value;
            i < |Flatten(m)| && Flatten(m)[i].mtype in m && m[Flatten(m)[i].mtype][0] == Flatten(m)[i]
  {
    var q, i := Flatten(m), First(Flatten(m), w).value;
    FirstIs(q, w);
    WithoutOfType(q, i, q[i].mtype);
    FlattenIs(m, q[i].mtype);
  }

  /** Removing index 0 of the found type removes exactly the message that was found. */
  lemma PopRefines(m: Buckets, w: Want)
    requires Bucketed(m) && First(Flatten(m), w).Some?
    ensures var i := First(Flatten(m), w).value;
            i < |Flatten(m)| && Flatten(m)[i].mtype in m &&
            Bucketed(Popped(m, Flatten(m)[i].mtype)) &&
            Flatten(Popped(m, Flatten(m)[i].mtype)) == Without(Flatten(m), i)
  {
    var q, i := Flatten(m), First(Flatten(m), w).value;
    FoundHead(m, w);
    var k := q[i].mtype;
    var n := Popped(m, k);
    FirstIs(q, w);
    PopBuckets(m, k, 0);
    FlattenIs(m, 0);
    FlattenIs(n, 0);
    WithoutOrdered(q, i);
    forall t: nat ensures OfType(Flatten(n), t) == OfType(Without(q, i), t) {
      FlattenIs(m, t);
      FlattenIs(n, t);
      PopBuckets(m, k, t);
      WithoutOfType(q, i, t);
      var head := if t == k then [m[k][0]] else [];
      assert OfType(Flatten(n), t) == Bucket(m, t)[|head|..];
      assert OfType(Without(q, i), t) == OfType(q, t)[|head|..];
    }
    OrderUnique(Flatten(n), Without(q, i));
  }

  ghost function Found(q: seq<Message>, w: Want): Option<Message>
  {
    match First(q, w) case None => None case Some(i) => Some(q[i])
  }

  /** The absolute value of the smallest 64-bit integer wraps around to itself. */
  function WrappingAbs(typ: int): int { if typ == INT64_MIN || typ >= 0 then typ else -typ }

  function WantOf(typ: int, except: bool): Want
  {
    if typ == 0 then AnyType
    else if typ < 0 then AtMost(WrappingAbs(typ))
    else if except then Except(typ)
    else Exactly(typ)
  }

  /** On this queue a receiver asking for `typ` gets what the types up to its absolute value give. */
  ghost predicate SearchesUpTo(q: seq<Message>, typ: int)
  {
    First(q, WantOf(typ, false)) == First(q, AtMost(-typ))
  }

  /** A negative type finds the least type up to its absolute value; the one exception is the most
      negative number, which finds nothing in any queue. */
  lemma NegativeTypeIff(typ: int)
    requires INT64_MIN <= typ < 0
    ensures (forall q :: SearchesUpTo(q, typ)) <==> typ != INT64_MIN
  {
    if typ == INT64_MIN {
      var q := [Message(1, [])];
      assert !Wants(WantOf(typ, false), q[0].mtype) && First(q[1..], WantOf(typ, false)) == None;
      assert !SearchesUpTo(q, typ);
    }
  }

  lemma AtMostIsLeast(q: seq<Message>, bound: int)
    requires Ordered(q) && First(q, AtMost(bound)).Some?
    ensures First(q, AtMost(bound)) == Some(0) && forall i :: 0 <= i < |q| ==> q[0].mtype <= q[i].mtype
  {
    FirstIs(q, AtMost(bound));
  }

  lemma HeadOfType(q: seq<Message>, i: nat)
    requires i < |q| && forall j :: 0 <= j < i ==> q[j].mtype != q[i].mtype
    ensures OfType(q, q[i].mtype) != [] && OfType(q, q[i].mtype)[0] == q[i]
  {
    WithoutOfType(q, i, q[i].mtype);
  }

  lemma MovesOver(a: seq<Message>, b: seq<Message>, x: Message)
    requires SameByType(a, b) && x in a
    ensures x in b
  {
    TypePresent(a, x);
    assert x in OfType(b, x.mtype);
    TypeKept(b, x.mtype, x);
  }

  /** Receiving takes the oldest message wanted (as section 2.7 of POSIX.1-2017 System Interfaces has it)
      exactly when that message is also of the least type wanted: `arrivals` is the same content in
      the order it was sent. */
  lemma OldestIff(arrivals: seq<Message>, q: seq<Message>, w: Want)
    requires Ordered(q) && SameByType(arrivals, q) && First(arrivals, w).Some?
    ensures Found(q, w) == Found(arrivals, w) <==>
            forall x :: x in arrivals && Wants(w, x.mtype) ==> arrivals[First(arrivals, w).value].mtype <= x.mtype
  {
    var k := First(arrivals, w).value;
    FirstIs(arrivals, w);
    MovesOver(arrivals, q, arrivals[k]);
    LeastWanted(arrivals, q, w);
    var i := First(q, w).value;
    assert q[i] in arrivals && Wants(w, q[i].mtype) by { FirstIs(q, w); MovesOver(q, arrivals, q[i]); }
    if q[i].mtype == arrivals[k].mtype {
      FirstIs(q, w);
      HeadOfType(q, i);
      HeadOfType(arrivals, k);
    }
  }

  lemma LeastWanted(arrivals: seq<Message>, q: seq<Message>, w: Want)
    requires Ordered(q) && SameByType(arrivals, q) && First(arrivals, w).Some?
    ensures First(q, w).Some?
    ensures forall x :: x in arrivals && Wants(w, x.mtype) ==> q[First(q, w).value].mtype <= x.mtype
  {
    FirstIs(arrivals, w);
    FirstIs(q, w);
    MovesOver(arrivals, q, arrivals[First(arrivals, w).value]);
    forall x | x in arrivals && Wants(w, x.mtype) ensures q[First(q, w).value].mtype <= x.mtype {
      MovesOver(arrivals, q, x);
    }
  }

  // ------------------------------------------------------------------------------------ one queue

  lemma BucketStep(m: Buckets, keys: seq<nat>, i: nat, w: Want)
    requires Bucketed(m) && i < |keys| && forall j :: 0 <= j < |keys| ==> keys[j] in m
    ensures Found(Flat(keys[i..], m), w) ==
            if Wants(w, keys[i]) then Some(m[keys[i]][0]) else Found(Flat(keys[i + 1..], m), w)
  {
    var a, b := m[keys[i]], Flat(keys[i + 1..], m);
    assert keys[i..][1..] == keys[i + 1..];
    assert Flat(keys[i..], m) == a + b;
    if !Wants(w, keys[i]) { FirstSkips(a, b, w); }
  }

  lemma FlatFrom(m: Buckets, keys: seq<nat>, i: nat)
    requires i < |keys| && forall j :: 0 <= j < |keys| ==> keys[j] in m
    ensures Flat(keys[i..], m) == m[keys[i]] + Flat(keys[i + 1..], m)
  {
    assert keys[i..][1..] == keys[i + 1..];
  }

  ghost function Nth(q: seq<Message>, i: nat): Option<Message>
  {
    if i < |q| then Some(q[i]) else None
  }

  function Min(a: nat, b: nat): nat { if a < b then a else b }

  /** The index, in the reference order, of the message that msgrcv picks. With MSG_COPY the type is an
      index, and a negative one is a huge unsigned number. */
  ghost function Selected(q: seq<Message>, typ: int, copy: bool, except: bool): (r: Option<nat>)
    ensures r.Some? ==> r.value < |q|
  {
    if !copy then First(q, WantOf(typ, except))
    else if typ % WORD < |q| then Some(typ % WORD) else None
  }

  ghost function Refusal(allowed: bool, removed: bool, q: seq<Message>, msgsz: nat, typ: int,
                         copy: bool, except: bool, noerror: bool, writable: bool): (r: Option<Errno>)
    ensures r == None ==> Selected(q, typ, copy, except).Some?
  {
    var i := Selected(q, typ, copy, except);
    if !allowed then Some(EACCES)
    else if removed then Some(EIDRM)
    else if i == None then Some(ENOMSG)
    else if |q[i.value].data| > msgsz && !noerror then Some(E2BIG)
    else if !writable then Some(EFAULT)
    else None
  }

  /** What msgrcv promises: 0 asks for any message, a positive type for that type or with MSG_EXCEPT for
      every other one, a negative type for the types up to its absolute value. The smallest 64-bit
      integer asks for nothing. */
  predicate Asked(typ: int, except: bool, t: nat)
  {
    || typ == 0
    || (typ > 0 && !except && t == typ) || (typ > 0 && except && t != typ)
    || (INT64_MIN < typ < 0 && t <= -typ)
  }

  /** Message `i` is the first one asked for. */
  ghost predicate Picks(q: seq<Message>, typ: int, except: bool, i: nat)
  {
    i < |q| && Asked(typ, except, q[i].mtype) && forall j :: 0 <= j < i ==> !Asked(typ, except, q[j].mtype)
  }

  ghost predicate NothingAsked(q: seq<Message>, typ: int, except: bool)
  {
    forall i :: 0 <= i < |q| ==> !Asked(typ, except, q[i].mtype)
  }

  /** A 64-bit signed number. */
  predicate IsLong(typ: int) { INT64_MIN <= typ < -INT64_MIN }

  lemma WantedIsAsked(typ: int, except: bool, t: nat)
    requires IsLong(typ)
    ensures Wants(WantOf(typ, except), t) <==> Asked(typ, except, t)
  {
  }

  /** The search finds the first message asked for, and nothing only if there is none. */
  lemma SelectedIs(q: seq<Message>, typ: int, except: bool)
    requires IsLong(typ)
    ensures var r := Selected(q, typ, false, except);
            if r.Some? then Picks(q, typ, except, r.value) else NothingAsked(q, typ, except)
  {
    FirstIs(q, WantOf(typ, except));
    forall i | 0 <= i < |q| ensures Wants(WantOf(typ, except), q[i].mtype) <==> Asked(typ, except, q[i].mtype) {
      WantedIsAsked(typ, except, q[i].mtype);
    }
  }

  /** A queue and a message that msgrcv makes out of `q`: the first message asked for is taken out, and its
      first `msgsz` bytes are returned. */
  ghost predicate Delivers(q: seq<Message>, rest: seq<Message>, x: Message, typ: int, except: bool, msgsz: nat)
  {
    exists i: nat :: Picks(q, typ, except, i) && rest == q[..i] + q[i + 1..] && Cut(q[i], x, msgsz)
  }

  ghost predicate Cut(x: Message, y: Message, msgsz: nat)
  {
    y.mtype == x.mtype && y.data <= x.data && |y.data| == Min(|x.data|, msgsz)
  }

  /** With MSG_COPY: the message at an index. */
  ghost predicate AtIndex(q: seq<Message>, typ: int, x: Message, msgsz: nat)
  {
    0 <= typ < |q| && Cut(q[typ], x, msgsz)
  }

  /** A message as it is returned, its data cut off after `msgsz` bytes. */
  function Trimmed(x: Message, msgsz: nat): Message { Message(x.mtype, x.data[..Min(|x.data|, msgsz)]) }

  lemma SelectedDelivers(q: seq<Message>, typ: int, copy: bool, except: bool, msgsz: nat)
    requires IsLong(typ) && Selected(q, typ, copy, except).Some?
    ensures var i := Selected(q, typ, copy, except).value;
            && (!copy ==> Delivers(q, Without(q, i), Trimmed(q[i], msgsz), typ, except, msgsz))
            && (copy && typ >= 0 ==> AtIndex(q, typ, Trimmed(q[i], msgsz), msgsz))
  {
    SelectedIs(q, typ, except);
    IndexWraps(typ);
  }

  /** When each error is returned, in the order in which they are looked for: `i` is the index of the
      message that msgrcv picks, if it picks one. */
  lemma RefusalIff(allowed: bool, removed: bool, q: seq<Message>, msgsz: nat, typ: int, copy: bool, except: bool,
                   noerror: bool, writable: bool, i: nat)
    requires IsLong(typ) && |q| <= -INT64_MIN
    requires i < |q| ==> if copy then i == typ else Picks(q, typ, except, i)
    requires i >= |q| ==> if copy then typ < 0 || typ >= |q| else NothingAsked(q, typ, except)
    ensures var r := Refusal(allowed, removed, q, msgsz, typ, copy, except, noerror, writable);
            && (r == Some(EACCES) <==> !allowed)
            && (r == Some(EIDRM) <==> allowed && removed)
            && (r == Some(ENOMSG) <==> allowed && !removed && i >= |q|)
            && (r == Some(E2BIG) <==> allowed && !removed && i < |q| && |q[i].data| > msgsz && !noerror)
            && (r == Some(EFAULT) <==> allowed && !removed && i < |q| && (|q[i].data| <= msgsz || noerror) && !writable)
            && (r == None <==> allowed && !removed && i < |q| && (|q[i].data| <= msgsz || noerror) && writable)
  {
    if copy {
      IndexWraps(typ);
    } else {
      SelectedIs(q, typ, except);
    }
  }

  lemma IndexWraps(typ: int)
    requires IsLong(typ)
    ensures typ % WORD == if typ < 0 then typ + WORD else typ
  {
  }

  datatype Errno = EINVAL | EACCES | EAGAIN | ENOSPC | EIDRM | ENOMSG | E2BIG | EFAULT | ENOENT | EEXIST | EPERM
  datatype Result<T> = Ok(value: T) | Err(error: Errno)

  ghost predicate Conserved(sent: seq<Message>, received: seq<Message>, queued: seq<Message>)
  {
    forall t: nat :: OfType(received, t) + OfType(queued, t) == OfType(sent, t)
  }

  /** The three counters agree with the buckets, and nothing is lost, duplicated or reordered. */
  ghost predicate Accounts(m: Buckets, totalBytes: nat, cbytes: nat, qnum: nat, sent: seq<Message>, received: seq<Message>)
  {
    && Bucketed(m)
    && totalBytes == cbytes == Bytes(Flatten(m)) && qnum == |Flatten(m)|
    && Conserved(sent, received, Flatten(m))
  }

  ghost function Pushed(m: Buckets, x: Message): Buckets { m[x.mtype := Bucket(m, x.mtype) + [x]] }

  lemma PushAccounts(m: Buckets, bytes: nat, n: nat, sent: seq<Message>, received: seq<Message>, x: Message)
    requires Accounts(m, bytes, bytes, n, sent, received)
    ensures Accounts(Pushed(m, x), bytes + |x.data|, bytes + |x.data|, n + 1, sent + [x], received)
  {
    PushRefines(m, x);
    InsertSizes(Flatten(m), x);
    FlattenIs(m, 0);
    SentConserved(sent, received, Flatten(m), x);
  }

  lemma PopAccounts(m: Buckets, bytes: nat, n: nat, sent: seq<Message>, received: seq<Message>, w: Want)
    requires Accounts(m, bytes, bytes, n, sent, received) && First(Flatten(m), w).Some?
    ensures var x := Flatten(m)[First(Flatten(m), w).value];
            && x.mtype in m && m[x.mtype] != [] && x == m[x.mtype][0] && |x.data| <= bytes && n > 0
            && Accounts(Popped(m, x.mtype), bytes - |x.data|, bytes - |x.data|, n - 1, sent, received + [x])
  {
    FoundHead(m, w);
    PopRefines(m, w);
    WithoutSizes(Flatten(m), First(Flatten(m), w).value);
    ReceivedConserved(sent, received, Flatten(m), w);
  }

  class MessageQueue {
    var messages: Buckets
    var totalBytes: nat
    var cbytes: nat
    var qnum: nat
    var qbytes: nat
    var markRemoved: bool
    ghost var sent: seq<Message>
    ghost var received: seq<Message>

    ghost function Contents(): seq<Message>
      reads this
    {
      Flatten(messages)
    }

    ghost predicate Valid()
      reads this
    {
      Accounts(messages, totalBytes, cbytes, qnum, sent, received) && totalBytes <= qbytes
    }

    constructor ()
      ensures Valid() && Contents() == sent == received == [] && qbytes == MSGMNB && !markRemoved
    {
      messages, totalBytes, cbytes, qnum, qbytes := map[], 0, 0, 0, MSGMNB;
      markRemoved := false;
      sent, received := [], [];
    }

    method FindFirst() returns (r: Option<Message>)
      requires Bucketed(messages)
      ensures r == Found(Contents(), AnyType)
      ensures r == if Contents() == [] then None else Some(Contents()[0])
    {
      var keys := SortedKeys(messages.Keys);
      for i := 0 to |keys|
        invariant Found(Contents(), AnyType) == Found(Flat(keys[i..], messages), AnyType)
      {
        BucketStep(messages, keys, i, AnyType);
        if messages[keys[i]] != [] { return Some(messages[keys[i]][0]); }
      }
      r := None;
    }

    method FindByType(typ: nat) returns (r: Option<Message>)
      requires Bucketed(messages)
      ensures r == Found(Contents(), Exactly(typ))
    {
      ByType(messages, typ);
      if typ in messages && messages[typ] != [] { return Some(messages[typ][0]); }
      r := None;
    }

    method FindNotEqual(typ: nat) returns (r: Option<Message>)
      requires Bucketed(messages)
      ensures r == Found(Contents(), Except(typ))
    {
      var keys := SortedKeys(messages.Keys);
      for i := 0 to |keys|
        invariant Found(Contents(), Except(typ)) == Found(Flat(keys[i..], messages), Except(typ))
      {
        BucketStep(messages, keys, i, Except(typ));
        if keys[i] != typ && messages[keys[i]] != [] { return Some(messages[keys[i]][0]); }
      }
      r := None;
    }

    method FindLessEqual(bound: int) returns (r: Option<Message>)
      requires Bucketed(messages)
      ensures r == Found(Contents(), AtMost(bound))
    {
      var keys := SortedKeys(messages.Keys);
      ghost var answer := Found(Contents(), AtMost(bound));
      ghost var c := 0;
      var candidate: Option<nat> := None;
      for i := 0 to |keys|
        invariant candidate.None? ==> answer == Found(Flat(keys[i..], messages), AtMost(bound))
        invariant candidate.Some? ==> 0 <= c < i && candidate.value == keys[c]
        invariant candidate.Some? ==> answer == Some(messages[candidate.value][0])
      {
        if candidate.None? {
          BucketStep(messages, keys, i, AtMost(bound));
        } else {
          EarlierKey(messages.Keys, c, i);
        }
        if keys[i] <= bound && messages[keys[i]] != [] && (candidate.None? || keys[i] < candidate.value) {
          candidate, c := Some(keys[i]), i;
        }
      }
      r := if candidate.Some? then Some(messages[candidate.value][0]) else None;
    }

    method TotalCount() returns (n: nat)
      requires Bucketed(messages)
      ensures n == |Contents()|
    {
      var keys := SortedKeys(messages.Keys);
      ghost var total := |Contents()|;
      n := 0;
      for i := 0 to |keys|
        invariant n + |Flat(keys[i..], messages)| == total
      {
        FlatFrom(messages, keys, i);
        n := n + |messages[keys[i]]|;
      }
    }

    /** The message at an index counts through the buckets in the order of their types. */
    method ByIndex(index: nat) returns (r: Option<Message>)
      requires Bucketed(messages)
      ensures r == Nth(Contents(), index)
    {
      var keys := SortedKeys(messages.Keys);
      var current: nat := 0;
      for i := 0 to |keys|
        invariant current <= index && Nth(Contents(), index) == Nth(Flat(keys[i..], messages), index - current)
      {
        FlatFrom(messages, keys, i);
        if index < current + |messages[keys[i]]| {
          return Some(messages[keys[i]][index - current]);
        }
        current := current + |messages[keys[i]]|;
      }
      r := None;
    }

    method Enqueue(mtype: nat, data: seq<Byte>) returns (r: Result<()>)
      modifies this`messages, this`totalBytes, this`cbytes, this`qnum
      ensures r.Ok? <==> old(totalBytes) + |data| <= qbytes
      ensures r.Err? ==> r.error == ENOSPC && unchanged(this)
      ensures r.Ok? ==> messages == Pushed(old(messages), Message(mtype, data)) && qnum == old(qnum) + 1
      ensures r.Ok? ==> totalBytes == old(totalBytes) + |data| && cbytes == old(cbytes) + |data|
    {
      if totalBytes + |data| > qbytes { return Err(ENOSPC); }
      messages := messages[mtype := (if mtype in messages then messages[mtype] else []) + [Message(mtype, data)]];
      totalBytes := totalBytes + |data|;
      cbytes := cbytes + |data|;
      qnum := qnum + 1;
      r := Ok(());
    }

    /** `remove_message_by_type_and_index`. */
    method RemoveAt(mtype: nat, index: nat) returns (r: Result<Message>)
      requires mtype in messages && index < |messages[mtype]| ==>
        |messages[mtype][index].data| <= totalBytes && |messages[mtype][index].data| <= cbytes && qnum > 0
      modifies this`messages, this`totalBytes, this`cbytes, this`qnum
      ensures r.Ok? <==> mtype in old(messages) && index < |old(messages)[mtype]|
      ensures r.Err? ==> r.error == ENOMSG && unchanged(this)
      ensures r.Ok? ==> r.value == old(messages)[mtype][index] && messages == TakenOut(old(messages), mtype, index)
      ensures r.Ok? ==> totalBytes == old(totalBytes) - |r.value.data| && cbytes == old(cbytes) - |r.value.data|
      ensures r.Ok? ==> qnum == old(qnum) - 1
    {
      if mtype !in messages || index >= |messages[mtype]| { return Err(ENOMSG); }
      var removed := messages[mtype][index];
      messages := messages[mtype := messages[mtype][..index] + messages[mtype][index + 1..]];
      totalBytes := totalBytes - |removed.data|;
      cbytes := cbytes - |removed.data|;
      qnum := qnum - 1;
      if messages[mtype] == [] { messages := messages - {mtype}; }
      r := Ok(removed);
    }

    /** msgsnd on a queue that was found. `mtype` and `text` are what reading user memory gives. */
    method Send(allowed: bool, mtype: Option<int>, text: Option<seq<Byte>>) returns (r: Result<()>)
      requires Valid()
      modifies this
      ensures Valid() && qbytes == old(qbytes) && markRemoved == old(markRemoved)
      ensures r.Ok? <==> allowed && mtype.Some? && mtype.value > 0 && text.Some?
                         && old(totalBytes) + |text.value| <= old(qbytes) && old(qnum) + 1 <= old(qbytes)
      ensures r.Err? ==> unchanged(this)
      ensures r.Err? ==> r.error == if !allowed then EACCES else if mtype.None? then EFAULT
                                    else if mtype.value <= 0 then EINVAL else if text.None? then EFAULT else EAGAIN
      ensures r.Ok? ==> Contents() == Insert(old(Contents()), Message(mtype.value, text.value))
      ensures r.Ok? ==> sent == old(sent) + [Message(mtype.value, text.value)] && received == old(received)
    {
      if !allowed { return Err(EACCES); }
      if mtype.None? { return Err(EFAULT); }
      if mtype.value <= 0 { return Err(EINVAL); }
      if text.None? { return Err(EFAULT); }
      if totalBytes + |text.value| > qbytes || qnum + 1 > qbytes { return Err(EAGAIN); }
      ghost var x := Message(mtype.value, text.value);
      PushAccounts(messages, totalBytes, qnum, sent, received, x);
      PushRefines(messages, x);
      r := Enqueue(mtype.value, text.value);
      sent := sent + [x];
    }

    method Match(typ: int, except: bool) returns (r: Option<Message>)
      requires Bucketed(messages)
      ensures r == Found(Contents(), WantOf(typ, except))
    {
      if typ == 0 {
        r := FindFirst();
      } else if typ > 0 {
        if except { r := FindNotEqual(typ); } else { r := FindByType(typ); }
      } else {
        r := FindLessEqual(WrappingAbs(typ));
      }
    }

    /** msgrcv on a queue that was found; `writable` is whether the caller's buffer can be written. */
    method Receive(allowed: bool, msgsz: nat, typ: int, copy: bool, except: bool, noerror: bool, writable: bool)
      returns (r: Result<Message>)
      requires Valid()
      modifies this
      ensures Valid()
      ensures r.Err? <==> Refusal(allowed, markRemoved, old(Contents()), msgsz, typ, copy, except, noerror, writable).Some?
      ensures r.Err? ==> r.error == Refusal(allowed, markRemoved, old(Contents()), msgsz, typ, copy, except, noerror, writable).value
      ensures r.Err? || copy ==> unchanged(this)
      ensures r.Ok? ==>
        var x := old(Contents())[Selected(old(Contents()), typ, copy, except).value];
        r.value == Trimmed(x, msgsz)
      ensures r.Ok? && !copy ==>
        var i := Selected(old(Contents()), typ, copy, except).value;
        && Contents() == Without(old(Contents()), i)
        && received == old(received) + [old(Contents())[i]] && sent == old(sent)
      ensures markRemoved == old(markRemoved) && qbytes == old(qbytes)
      ensures r.Ok? && !copy && IsLong(typ) ==> Delivers(old(Contents()), Contents(), r.value, typ, except, msgsz)
      ensures r.Ok? && copy && IsLong(typ) && typ >= 0 ==> AtIndex(old(Contents()), typ, r.value, msgsz)
      ensures allowed && !markRemoved && !copy && IsLong(typ) ==>
        (r == Err(ENOMSG) <==> NothingAsked(old(Contents()), typ, except))
    {
      if IsLong(typ) { SelectedIs(Contents(), typ, except); }
      if !allowed { return Err(EACCES); }
      if markRemoved { return Err(EIDRM); }
      var matched := Look(typ, copy, except);
      if matched.None? { return Err(ENOMSG); }
      if |matched.value.data| > msgsz && !noerror { return Err(E2BIG); }
      if !writable { return Err(EFAULT); }
      if IsLong(typ) { SelectedDelivers(Contents(), typ, copy, except, msgsz); }
      if !copy {
        Take(WantOf(typ, except), matched.value.mtype);
      }
      r := Ok(Trimmed(matched.value, msgsz));
    }

    /** The search of msgrcv, by index or by type. */
    method Look(typ: int, copy: bool, except: bool) returns (r: Option<Message>)
      requires Bucketed(messages)
      ensures r == match Selected(Contents(), typ, copy, except) case None => None case Some(i) => Some(Contents()[i])
    {
      if copy {
        var count := TotalCount();
        if typ % WORD >= count { return None; }
        r := ByIndex(typ % WORD);
      } else {
        r := Match(typ, except);
      }
    }

    /** The removal after a search: index 0 of the type found. */
    method Take(ghost w: Want, mtype: nat)
      requires Valid() && First(Contents(), w).Some? && Contents()[First(Contents(), w).value].mtype == mtype
      modifies this
      ensures Valid() && qbytes == old(qbytes) && markRemoved == old(markRemoved) && sent == old(sent)
      ensures Contents() == Without(old(Contents()), First(old(Contents()), w).value)
      ensures received == old(received) + [old(Contents())[First(old(Contents()), w).value]]
    {
      PopAccounts(messages, totalBytes, qnum, sent, received, w);
      PopRefines(messages, w);
      ghost var x := Contents()[First(Contents(), w).value];
      var _ := RemoveAt(mtype, 0);
      received := received + [x];
    }
  }

  /** It happens: of two messages of types 2 and 1, sent in this order, a receiver that takes any type
      gets the second. */
  method YoungerFirst() returns (r: Result<Message>)
    ensures r == Ok(Message(1, []))
  {
    var queue := new MessageQueue();
    var first := queue.Send(true, Some(2), Some([]));
    assert queue.Contents() == [Message(2, [])];
    var second := queue.Send(true, Some(1), Some([]));
    assert queue.Contents() == [Message(1, []), Message(2, [])];
    r := queue.Receive(true, 0, 0, false, false, false, true);
  }

  // ------------------------------------------------------------------------------- the manager

  class MsgManager {
    var keyMsqid: map<int, nat>
    var queues: map<nat, MessageQueue>
    var nextId: nat

    ghost predicate Valid()
      reads this, queues.Values
    {
      && (forall id :: id in queues ==> id < nextId && queues[id].Valid())
      && (forall i, j :: i in queues && j in queues && i != j ==> queues[i] != queues[j])
      && (forall k :: k in keyMsqid ==> keyMsqid[k] in queues)
    }

    constructor ()
      ensures Valid() && queues == map[]
    {
      keyMsqid, queues, nextId := map[], map[], 0;
    }

    method Create() returns (id: nat)
      requires Valid()
      modifies this
      ensures Valid() && id == old(nextId) && nextId == id + 1 && keyMsqid == old(keyMsqid)
      ensures id in queues && fresh(queues[id]) && queues == old(queues)[id := queues[id]]
      ensures queues[id].Contents() == [] && !queues[id].markRemoved
    {
      var queue := new MessageQueue();
      id := nextId;
      nextId := nextId + 1;
      queues := queues[id := queue];
    }

    method Get(key: int, create: bool, exclusive: bool, allowed: bool) returns (r: Result<nat>)
      requires Valid()
      modifies this
      ensures Valid()
      ensures r == if |old(queues)| >= MSGMNI then Err(ENOSPC)
                   else if key == IPC_PRIVATE then Ok(old(nextId))
                   else if key !in old(keyMsqid) then (if create then Ok(old(nextId)) else Err(ENOENT))
                   else if !allowed then Err(EACCES)
                   else if old(queues[keyMsqid[key]].markRemoved) then Err(EIDRM)
                   else if exclusive && create then Err(EEXIST)
                   else Ok(old(keyMsqid)[key])
      ensures r.Err? ==> unchanged(this)
      ensures r.Ok? ==> r.value in queues && !queues[r.value].markRemoved
      ensures r.Ok? && key != IPC_PRIVATE ==> key in keyMsqid && keyMsqid[key] == r.value
      ensures r.Ok? && (key == IPC_PRIVATE || key !in old(keyMsqid)) ==>
        r.value !in old(queues) && queues[r.value].Contents() == []
      ensures r.Ok? && key != IPC_PRIVATE && key in old(keyMsqid) ==> unchanged(this)
    {
      if |queues| >= MSGMNI { return Err(ENOSPC); }
      if key == IPC_PRIVATE {
        var created := Create();
        return Ok(created);
      }
      if key in keyMsqid {
        var id := keyMsqid[key];
        if !allowed { return Err(EACCES); }
        if queues[id].markRemoved { return Err(EIDRM); }
        if exclusive && create { return Err(EEXIST); }
        return Ok(id);
      }
      if !create { return Err(ENOENT); }
      var id := Create();
      keyMsqid := keyMsqid[key := id];
      r := Ok(id);
    }

    method Send(id: nat, allowed: bool, mtype: Option<int>, msgsz: nat, text: Option<seq<Byte>>)
      returns (r: Result<()>)
      requires Valid() && (text.Some? ==> |text.value| == msgsz)
      modifies if id in queues then {queues[id]} else {}
      ensures Valid()
      ensures msgsz > MSGMAX || id !in queues ==> r == Err(EINVAL)
      ensures r.Err? && id in queues ==> unchanged(queues[id])
      ensures r.Ok? <==> id in queues && msgsz <= MSGMAX && allowed && mtype.Some? && mtype.value > 0 && text.Some?
                         && old(queues[id].totalBytes) + msgsz <= old(queues[id].qbytes)
                         && old(queues[id].qnum) + 1 <= old(queues[id].qbytes)
      ensures r.Err? && msgsz <= MSGMAX && id in queues ==>
        r.error == if !allowed then EACCES else if mtype.None? then EFAULT
                   else if mtype.value <= 0 then EINVAL else if text.None? then EFAULT else EAGAIN
      ensures r.Ok? ==> queues[id].Contents() == Insert(old(queues[id].Contents()), Message(mtype.value, text.value))
    {
      if msgsz > MSGMAX || id !in queues { return Err(EINVAL); }
      r := queues[id].Send(allowed, mtype, text);
    }

    method Receive(id: nat, allowed: bool, msgsz: nat, typ: int, copy: bool, nowait: bool, except: bool,
                   noerror: bool, writable: bool) returns (r: Result<Message>)
      requires Valid()
      modifies if id in queues then {queues[id]} else {}
      ensures Valid()
      ensures (copy && (!nowait || except)) || id !in queues ==> r == Err(EINVAL)
      ensures (r.Err? || copy) && id in queues ==> unchanged(queues[id])
      ensures id in queues && !(copy && (!nowait || except)) ==>
        var refusal := Refusal(allowed, old(queues[id].markRemoved), old(queues[id].Contents()), msgsz, typ,
                               copy, except, noerror, writable);
        (r.Err? <==> refusal.Some?) && (r.Err? ==> r.error == refusal.value)
      ensures r.Ok? ==> id in queues && Selected(old(queues[id].Contents()), typ, copy, except).Some?
      ensures r.Ok? && !copy ==>
        var q := old(queues[id].Contents());
        queues[id].Contents() == Without(q, Selected(q, typ, copy, except).value)
      ensures r.Ok? && !copy && IsLong(typ) ==>
        Delivers(old(queues[id].Contents()), queues[id].Contents(), r.value, typ, except, msgsz)
      ensures r.Ok? && copy && IsLong(typ) && typ >= 0 ==>
        AtIndex(old(queues[id].Contents()), typ, r.value, msgsz)
      ensures id in queues && allowed && !old(queues[id].markRemoved) && !copy && IsLong(typ) ==>
        (r == Err(ENOMSG) <==> NothingAsked(old(queues[id].Contents()), typ, except))
    {
      if copy && (!nowait || except) { return Err(EINVAL); }
      if id !in queues { return Err(EINVAL); }
      r := queues[id].Receive(allowed, msgsz, typ, copy, except, noerror, writable);
    }

    /** IPC_RMID: an empty queue and every key for it go at once; any other queue is only marked. A
        receive on a marked queue is refused, and so is removing it again, so that its messages are
        never taken out and the queue never goes. */
    method Remove(id: nat, owner: bool) returns (r: Result<()>)
      requires Valid()
      modifies this, if id in queues then {queues[id]} else {}
      ensures Valid()
      ensures r == if id !in old(queues) then Err(EINVAL)
                   else if old(queues[id].markRemoved) then Err(EIDRM)
                   else if !owner then Err(EPERM) else Ok(())
      ensures r.Err? ==> unchanged(this) && (id in queues ==> unchanged(queues[id]))
      ensures r.Ok? ==> old(queues[id]).markRemoved && old(queues[id]).Contents() == old(queues[id].Contents())
      ensures r.Ok? ==> (id !in queues <==> old(queues[id].Contents()) == [])
      ensures r.Ok? ==> queues == if id in queues then old(queues) else old(queues) - {id}
      ensures r.Ok? && id !in queues ==> forall k :: k in keyMsqid <==> k in old(keyMsqid) && old(keyMsqid)[k] != id
    {
      if id !in queues { return Err(EINVAL); }
      var queue := queues[id];
      if queue.markRemoved { return Err(EIDRM); }
      if !owner { return Err(EPERM); }
      queue.markRemoved := true;
      if queue.qnum == 0 { Forget(id); }
      r := Ok(());
    }

    /** `remove_msqid`. */
    method Forget(id: nat)
      requires Valid() && id in queues
      modifies this`keyMsqid, this`queues
      ensures Valid() && queues == old(queues) - {id}
      ensures keyMsqid == map k | k in old(keyMsqid) && old(keyMsqid)[k] != id :: old(keyMsqid)[k]
    {
      keyMsqid := map k | k in keyMsqid && keyMsqid[k] != id :: keyMsqid[k];
      queues := queues - {id};
    }
  }

  lemma ByType(m: Buckets, t: nat)
    requires Bucketed(m)
    ensures Found(Flatten(m), Exactly(t)) == if t in m then Some(m[t][0]) else None
  {
    var q := Flatten(m);
    FlattenIs(m, t);
    FirstIs(q, Exactly(t));
    if First(q, Exactly(t)).Some? {
      FoundHead(m, Exactly(t));
    } else {
      OfTypeAbsent(q, t);
    }
  }

  lemma SentConserved(sent: seq<Message>, received: seq<Message>, q: seq<Message>, x: Message)
    requires Ordered(q) && Conserved(sent, received, q)
    ensures Conserved(sent + [x], received, Insert(q, x))
  {
    forall t: nat ensures OfType(received, t) + OfType(Insert(q, x), t) == OfType(sent + [x], t) {
      SentOfType(sent, received, q, x, t);
    }
  }

  lemma SentOfType(sent: seq<Message>, received: seq<Message>, q: seq<Message>, x: Message, t: nat)
    requires Ordered(q) && OfType(received, t) + OfType(q, t) == OfType(sent, t)
    ensures OfType(received, t) + OfType(Insert(q, x), t) == OfType(sent + [x], t)
  {
    InsertOfType(q, x, t);
    OfTypeConcat(sent, [x], t);
    OfTypeUniform([x], x.mtype, t);
    Regroup(OfType(received, t), OfType(q, t), if t == x.mtype then [x] else []);
  }

  lemma ReceivedConserved(sent: seq<Message>, received: seq<Message>, q: seq<Message>, w: Want)
    requires Conserved(sent, received, q) && First(q, w).Some?
    ensures var i := First(q, w).value; Conserved(sent, received + [q[i]], Without(q, i))
  {
    var i := First(q, w).value;
    FirstIs(q, w);
    forall t: nat ensures OfType(received + [q[i]], t) + OfType(Without(q, i), t) == OfType(sent, t) {
      ReceivedOfType(sent, received, q, i, t);
    }
  }

  lemma ReceivedOfType(sent: seq<Message>, received: seq<Message>, q: seq<Message>, i: nat, t: nat)
    requires i < |q| && forall j :: 0 <= j < i ==> q[j].mtype != q[i].mtype
    requires OfType(received, t) + OfType(q, t) == OfType(sent, t)
    ensures OfType(received + [q[i]], t) + OfType(Without(q, i), t) == OfType(sent, t)
  {
    WithoutOfType(q, i, t);
    OfTypeConcat(received, [q[i]], t);
    OfTypeUniform([q[i]], q[i].mtype, t);
    Regroup(OfType(received, t), if t == q[i].mtype then [q[i]] else [], OfType(Without(q, i), t));
  }
}
