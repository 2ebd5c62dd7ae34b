/** The path-addressed settings of the browser client: what is kept in memory and what a reload
    rebuilds from localStorage. */
module Settings {
  import opened Wrappers
  import opened Text

  /** A JSON value; Atom stands for the strings, numbers and booleans. An absent property is no
      value at all. */
  datatype Json = Atom(text: string) | Null | Obj(fields: map<string, Json>)

  type Keys = seq<string>

  // ---------- paths ----------

  /** path.split('.') */
  function Split(path: string): (ks: Keys)
    ensures ks != []
    ensures forall k :: k in ks ==> '.' !in k
  {
    var n := FirstOf(path, {'.'});
    [path[..n]] + if n < |path| then Split(path[n + 1..]) else []
  }

  function JoinKeys(ks: Keys): string {
    if ks == [] then "" else if |ks| == 1 then ks[0] else ks[0] + "." + JoinKeys(ks[1..])
  }

  lemma JoinCons(k: string, ks: Keys)
    requires ks != []
    ensures JoinKeys([k] + ks) == k + "." + JoinKeys(ks)
  {
    assert ([k] + ks)[1..] == ks;
  }

  lemma CutAtDot(path: string, n: nat)
    requires n < |path| && path[n] == '.'
    ensures path == path[..n] + "." + path[n + 1..]
  {
  }

  lemma NoDot(path: string)
    requires FirstOf(path, {'.'}) == |path|
    ensures Split(path) == [path]
  {
    assert path[..|path|] == path;
    assert [path] + [] == [path];
  }

  lemma {:induction false} JoinOfSplit(path: string)
    ensures JoinKeys(Split(path)) == path
    decreases |path|
  {
    var n := FirstOf(path, {'.'});
    if n < |path| {
      JoinOfSplit(path[n + 1..]);
      JoinCons(path[..n], Split(path[n + 1..]));
      CutAtDot(path, n);
    } else {
      NoDot(path);
    }
  }

  /** Different paths have different keys, so localStorage keeps them apart. */
  lemma SplitIsInjective(p: string, q: string)
    requires Split(p) == Split(q)
    ensures p == q
  {
    JoinOfSplit(p);
    JoinOfSplit(q);
  }

  // ---------- reading and writing ----------

  /** getFromPath; nothing stands for undefined. */
  function Get(t: Json, ks: Keys): Option<Json> {
    if ks == [] then Some(t)
    else if t.Obj? && ks[0] in t.fields then Get(t.fields[ks[0]], ks[1..])
    else None
  }

  datatype TypeError = TypeError

  /** setToPath: walks down, putting an empty object where there is nothing or null, and assigns to
      the last key. A primitive on the way cannot take a property. */
  function SetToPath(t: Json, ks: Keys, v: Json): Result<Json, TypeError>
    requires ks != []
    decreases |ks|
  {
    if !t.Obj? then Failure(TypeError)
    else if |ks| == 1 then Success(Obj(t.fields[ks[0] := v]))
    else
      var child := if ks[0] in t.fields && !t.fields[ks[0]].Null? then t.fields[ks[0]] else Obj(map[]);
      match SetToPath(child, ks[1..], v)
      case Failure(e) => Failure(e)
      case Success(c) => Success(Obj(t.fields[ks[0] := c]))
  }

  /** The fields of a value, if it has any. */
  function Fields(t: Json): map<string, Json> {
    if t.Obj? then t.fields else map[]
  }

  function Child(t: Json, k: string): Json {
    if k in Fields(t) then Fields(t)[k] else Null
  }

  /** Writing without a check on the way: what is no object is treated as an empty one. */
  function Put(t: Json, ks: Keys, v: Json): Json
    decreases |ks|
  {
    if ks == [] then v else Obj(Fields(t)[ks[0] := Put(Child(t, ks[0]), ks[1..], v)])
  }

  /** No primitive is in the way of a path. */
  predicate Fits(t: Json, ks: Keys)
    decreases |ks|
  {
    ks != [] ==>
      && t.Obj?
      && (|ks| > 1 && ks[0] in t.fields && !t.fields[ks[0]].Null? ==> Fits(t.fields[ks[0]], ks[1..]))
  }

  /** setToPath fails exactly on paths that a primitive is in the way of. */
  lemma {:induction false} SetSucceedsIff(t: Json, ks: Keys, v: Json)
    requires ks != []
    ensures SetToPath(t, ks, v) == if Fits(t, ks) then Success(Put(t, ks, v)) else Failure(TypeError)
    decreases |ks|
  {
    if t.Obj? {
      if |ks| > 1 {
        var child := if ks[0] in t.fields && !t.fields[ks[0]].Null? then t.fields[ks[0]] else Obj(map[]);
        SetSucceedsIff(child, ks[1..], v);
        if child == Obj(map[]) {
          PutOnEmpty(ks[1..], v);
        }
      } else {
        assert ks[1..] == [];
      }
    }
  }

  lemma PutOnEmpty(ks: Keys, v: Json)
    requires ks != []
    ensures Put(Null, ks, v) == Put(Obj(map[]), ks, v) && Fits(Obj(map[]), ks)
  {
  }

  predicate Incomparable(p: Keys, q: Keys) { !(p <= q) && !(q <= p) }

  lemma Heads(p: Keys, q: Keys)
    requires Incomparable(p, q)
    ensures p != [] && q != []
    ensures p[0] == q[0] ==> Incomparable(p[1..], q[1..])
  {
    assert p == [p[0]] + p[1..] && q == [q[0]] + q[1..];
    assert p[0] == q[0] && p[1..] <= q[1..] ==> p <= q;
    assert p[0] == q[0] && q[1..] <= p[1..] ==> q <= p;
  }

  /** What was written is read back, and every path that is neither a prefix nor an extension of the
      written one reads as before. */
  lemma {:induction false} GetAfterPut(t: Json, p: Keys, v: Json, q: Keys)
    ensures Get(Put(t, p, v), p) == Some(v)
    ensures Incomparable(p, q) ==> Get(Put(t, p, v), q) == Get(t, q)
    decreases |p|
  {
    if p != [] {
      if Incomparable(p, q) {
        Heads(p, q);
      }
      GetAfterPut(Child(t, p[0]), p[1..], v, if q != [] then q[1..] else []);
    }
  }

  lemma ChildAfterPut(t: Json, p: Keys, v: Json, k: string)
    requires p != []
    ensures Child(Put(t, p, v), k) == if k == p[0] then Put(Child(t, k), p[1..], v) else Child(t, k)
    ensures Fields(Put(t, p, v)) == Fields(t)[p[0] := Put(Child(t, p[0]), p[1..], v)]
  {
  }

  lemma PutUnder(t: Json, p: Keys, v: Json, q: Keys, w: Json)
    requires p != [] && q != []
    ensures p[0] == q[0] ==>
      Put(Put(t, p, v), q, w) == Obj(Fields(t)[p[0] := Put(Put(Child(t, p[0]), p[1..], v), q[1..], w)])
    ensures p[0] != q[0] ==>
      Put(Put(t, p, v), q, w) ==
      Obj(Fields(t)[p[0] := Put(Child(t, p[0]), p[1..], v)][q[0] := Put(Child(t, q[0]), q[1..], w)])
  {
    ChildAfterPut(t, p, v, q[0]);
  }

  /** Writes to incomparable paths commute. */
  lemma {:induction false} PutsCommute(t: Json, p: Keys, v: Json, q: Keys, w: Json)
    requires Incomparable(p, q)
    ensures Put(Put(t, p, v), q, w) == Put(Put(t, q, w), p, v)
    decreases |p|
  {
    Heads(p, q);
    PutUnder(t, p, v, q, w);
    PutUnder(t, q, w, p, v);
    if p[0] == q[0] {
      PutsCommute(Child(t, p[0]), p[1..], v, q[1..], w);
    } else {
      SwapKeys(Fields(t), p[0], Put(Child(t, p[0]), p[1..], v), q[0], Put(Child(t, q[0]), q[1..], w));
    }
  }

  lemma SwapKeys(f: map<string, Json>, a: string, x: Json, b: string, y: Json)
    requires a != b
    ensures f[a := x][b := y] == f[b := y][a := x]
  {
  }

  /** A second write to the same path replaces the first. */
  lemma {:induction false} PutTwice(t: Json, p: Keys, v: Json, w: Json)
    ensures Put(Put(t, p, v), p, w) == Put(t, p, w)
    decreases |p|
  {
    if p != [] {
      PutUnder(t, p, v, p, w);
      PutTwice(Child(t, p[0]), p[1..], v, w);
    }
  }

  /** A write leaves room for the paths that had it before: for the same path and for every
      incomparable one. */
  lemma {:induction false} FitsAfterPut(t: Json, p: Keys, v: Json, q: Keys)
    requires Fits(t, p) && Fits(t, q) && p != [] && (p == q || Incomparable(p, q))
    ensures Fits(Put(t, p, v), q)
    decreases |p|
  {
    if p != q {
      Heads(p, q);
    }
    if p[0] == q[0] && |p| > 1 && |q| > 1 {
      var child := Child(t, p[0]);
      if child.Null? {
        PutOnEmpty(p[1..], v);
        PutOnEmpty(q[1..], v);
        FitsAfterPut(Obj(map[]), p[1..], v, q[1..]);
      } else {
        FitsAfterPut(child, p[1..], v, q[1..]);
      }
    }
  }

  /** A primitive leaves no room for longer paths. */
  lemma {:induction false} PrimitiveInTheWay(t: Json, p: Keys, v: Json, q: Keys)
    requires p != [] && p < q && v.Atom?
    ensures !Fits(Put(t, p, v), q)
    decreases |p|
  {
    assert p[0] == q[0];
    if |p| > 1 {
      assert p[1..] < q[1..];
      PrimitiveInTheWay(Child(t, p[0]), p[1..], v, q[1..]);
    } else {
      assert p[1..] == [];
    }
  }

  // ---------- loading ----------

  type Storage = map<string, Json>

  /** The loop of the mount effect: one write for each stored path, in the order of the keys. */
  function Load(t: Json, order: seq<string>, storage: Storage): Json
    requires forall p :: p in order ==> p in storage
  {
    if order == [] then t
    else Put(Load(t, order[..|order| - 1], storage), Split(order[|order| - 1]), storage[order[|order| - 1]])
  }

  /** No two of the paths are comparable. */
  predicate PrefixFree(paths: set<string>) {
    forall p, q :: p in paths && q in paths && p != q ==> Incomparable(Split(p), Split(q))
  }

  predicate NoRepeats(order: seq<string>) {
    forall i, j :: 0 <= i < j < |order| ==> order[i] != order[j]
  }

  /** An enumeration of the stored paths, as Object.keys may give it. */
  ghost predicate Enumerates(order: seq<string>, storage: Storage) {
    NoRepeats(order) && forall p :: p in order <==> p in storage
  }

  /** A write to a path that is not in the order can be made after the others instead of before. */
  lemma {:induction false} PutAfterLoad(t: Json, order: seq<string>, storage: Storage, p: string, v: Json)
    requires (forall x :: x in order ==> x in storage) && p !in order
    requires PrefixFree((set x | x in order) + {p})
    ensures Load(Put(t, Split(p), v), order, storage) == Put(Load(t, order, storage), Split(p), v)
    decreases |order|
  {
    if order != [] {
      var init, last := order[..|order| - 1], order[|order| - 1];
      assert PrefixFree((set x | x in init) + {p});
      PutAfterLoad(t, init, storage, p, v);
      assert last in (set x | x in order) + {p} && last != p;
      PutsCommute(Load(t, init, storage), Split(p), v, Split(last), storage[last]);
    }
  }

  lemma {:induction false} LoadOfSum(t: Json, a: seq<string>, b: seq<string>, storage: Storage)
    requires forall x :: x in a + b ==> x in storage
    ensures (forall x :: x in a ==> x in storage) && (forall x :: x in b ==> x in storage)
    ensures Load(t, a + b, storage) == Load(Load(t, a, storage), b, storage)
    decreases |b|
  {
    assert forall x :: x in a ==> x in a + b;
    assert forall x :: x in b ==> x in a + b;
    if b == [] {
      assert a + b == a;
    } else {
      var n := |b| - 1;
      assert (a + b)[..|a + b| - 1] == a + b[..n];
      LoadOfSum(t, a, b[..n], storage);
    }
  }

  /** A stored path can be loaded last. */
  lemma LoadedLastOf(t: Json, a: seq<string>, p: string, b: seq<string>, storage: Storage)
    requires (forall x :: x in a + [p] + b ==> x in storage) && p !in b
    requires PrefixFree((set x | x in b) + {p})
    ensures forall x :: x in a + b ==> x in storage
    ensures Load(t, a + [p] + b, storage) == Put(Load(t, a + b, storage), Split(p), storage[p])
  {
    assert forall x :: x in a + b ==> x in a + [p] + b;
    LoadOfSum(t, a + [p], b, storage);
    LoadOfSum(t, a, b, storage);
    assert (a + [p])[..|a|] == a;
    assert p in a + [p] + b;
    PutAfterLoad(Load(t, a, storage), b, storage, p, storage[p]);
  }

  lemma LoadedLast(t: Json, order: seq<string>, storage: Storage, i: nat)
    requires i < |order| && NoRepeats(order) && (forall p :: p in order ==> p in storage)
    requires PrefixFree(set p | p in order)
    ensures var rest := order[..i] + order[i + 1..];
            && (forall p :: p in rest ==> p in storage)
            && Load(t, order, storage) == Put(Load(t, rest, storage), Split(order[i]), storage[order[i]])
  {
    var a, p, b := order[..i], order[i], order[i + 1..];
    assert order == a + [p] + b;
    assert forall x :: x in b ==> x in order;
    assert p !in b;
    assert PrefixFree((set x | x in b) + {p});
    LoadedLastOf(t, a, p, b, storage);
  }

  lemma RestOf(order: seq<string>, i: nat)
    requires i < |order| && NoRepeats(order)
    ensures var rest := order[..i] + order[i + 1..];
            NoRepeats(rest) && forall p :: p in rest <==> p in order && p != order[i]
  {
    var rest := order[..i] + order[i + 1..];
    forall p | p in order && p != order[i] ensures p in rest {
      var j :| 0 <= j < |order| && order[j] == p;
      assert rest[if j < i then j else j - 1] == p;
    }
  }

  lemma Occupied(order: seq<string>)
    ensures order != [] ==> exists p :: p in order
  {
    if order != [] {
      assert order[0] in order;
    }
  }

  /** The order of the keys does not matter. */
  lemma {:induction false} OrderIsIrrelevant(t: Json, order1: seq<string>, order2: seq<string>, storage: Storage)
    requires NoRepeats(order1) && NoRepeats(order2) && (forall p :: p in order1 <==> p in order2)
    requires (forall p :: p in order1 ==> p in storage) && PrefixFree(set p | p in order1)
    ensures Load(t, order1, storage) == Load(t, order2, storage)
    decreases |order1|
  {
    if order1 == [] {
      Occupied(order2);
    } else {
      var n := |order1| - 1;
      var init, p := order1[..n], order1[n];
      assert p in order2;
      var i :| 0 <= i < |order2| && order2[i] == p;
      var rest := order2[..i] + order2[i + 1..];
      assert (set x | x in order2) == (set x | x in order1);
      LoadedLast(t, order2, storage, i);
      RestOf(order2, i);
      InitOf(order1);
      OrderIsIrrelevant(t, init, rest, storage);
      assert Load(t, order1, storage) == Put(Load(t, init, storage), Split(p), storage[p]);
    }
  }

  lemma InitOf(order: seq<string>)
    requires order != [] && NoRepeats(order)
    ensures var n := |order| - 1;
            && NoRepeats(order[..n]) && (forall p :: p in order[..n] <==> p in order && p != order[n])
            && (PrefixFree(set p | p in order) ==> PrefixFree(set p | p in order[..n]))
  {
    var n := |order| - 1;
    RestOf(order, n);
    assert order[..n] + order[n + 1..] == order[..n];
  }

  // ---------- a session ----------

  /** The mount effect as it runs: setToPath for every stored path. */
  function Mount(t: Json, order: seq<string>, storage: Storage): Result<Json, TypeError>
    requires forall p :: p in order ==> p in storage
  {
    if order == [] then Success(t)
    else
      var last := order[|order| - 1];
      match Mount(t, order[..|order| - 1], storage)
      case Failure(e) => Failure(e)
      case Success(m) => SetToPath(m, Split(last), storage[last])
  }

  /** A call of storeOption; `stored` tells whether localStorage takes the value, for storeLeaf
      swallows its error. */
  datatype Op = Op(path: string, value: Json, stored: bool)

  datatype Session = Session(settings: Json, storage: Storage)

  /** storeOption: the updater writes to memory and then to localStorage. */
  function StoreOption(s: Session, op: Op): Result<Session, TypeError> {
    match SetToPath(s.settings, Split(op.path), op.value)
    case Failure(e) => Failure(e)
    case Success(m) => Success(Session(m, if op.stored then s.storage[op.path := op.value] else s.storage))
  }

  function StoreAll(s: Session, ops: seq<Op>): Result<Session, TypeError> {
    if ops == [] then Success(s)
    else
      match StoreAll(s, ops[..|ops| - 1])
      case Failure(e) => Failure(e)
      case Success(s1) => StoreOption(s1, ops[|ops| - 1])
  }

  /** The last value written to each path, and the last value that localStorage took. */
  function Written(storage: Storage, ops: seq<Op>): Storage {
    if ops == [] then storage
    else var op := ops[|ops| - 1]; Written(storage, ops[..|ops| - 1])[op.path := op.value]
  }

  function Kept(storage: Storage, ops: seq<Op>): Storage {
    if ops == [] then storage
    else
      var op := ops[|ops| - 1];
      var before := Kept(storage, ops[..|ops| - 1]);
      if op.stored then before[op.path := op.value] else before
  }

  lemma {:induction false} StorageIsKept(s: Session, ops: seq<Op>)
    requires StoreAll(s, ops).Success?
    ensures StoreAll(s, ops).value.storage == Kept(s.storage, ops)
    ensures Kept(s.storage, ops).Keys <= Written(s.storage, ops).Keys
    ensures (forall op :: op in ops ==> op.stored) ==> Kept(s.storage, ops) == Written(s.storage, ops)
    decreases |ops|
  {
    if ops != [] {
      StorageIsKept(s, ops[..|ops| - 1]);
      assert ops[|ops| - 1] in ops;
    }
  }

  /** There is room for every path. */
  ghost predicate AllFit(t: Json, paths: set<string>) {
    forall p :: p in paths ==> Fits(t, Split(p))
  }

  lemma AllFitAfterPut(t: Json, paths: set<string>, p: string, v: Json)
    requires PrefixFree(paths) && p in paths && AllFit(t, paths)
    ensures SetToPath(t, Split(p), v) == Success(Put(t, Split(p), v)) && AllFit(Put(t, Split(p), v), paths)
  {
    SetSucceedsIff(t, Split(p), v);
    forall q | q in paths ensures Fits(Put(t, Split(p), v), Split(q)) {
      FitsAfterPut(t, Split(p), v, Split(q));
    }
  }

  lemma {:induction false} MountIsLoad(t: Json, order: seq<string>, storage: Storage, paths: set<string>)
    requires PrefixFree(paths) && AllFit(t, paths)
    requires forall p :: p in order ==> p in storage && p in paths
    ensures Mount(t, order, storage) == Success(Load(t, order, storage))
    ensures AllFit(Load(t, order, storage), paths)
    decreases |order|
  {
    if order != [] {
      var init, last := order[..|order| - 1], order[|order| - 1];
      MountIsLoad(t, init, storage, paths);
      AllFitAfterPut(Load(t, init, storage), paths, last, storage[last]);
    }
  }

  /** Memory holds the defaults with what was written, loaded in any order. */
  ghost predicate Agree(t: Json, settings: Json, written: Storage, paths: set<string>) {
    && written.Keys <= paths && AllFit(settings, paths)
    && exists order :: Enumerates(order, written) && settings == Load(t, order, written)
  }

  /** Loading does not look at paths that are not in the order. */
  lemma {:induction false} LoadFrame(t: Json, order: seq<string>, storage: Storage, p: string, v: Json)
    requires (forall x :: x in order ==> x in storage) && p !in order
    ensures Load(t, order, storage[p := v]) == Load(t, order, storage)
    decreases |order|
  {
    if order != [] {
      LoadFrame(t, order[..|order| - 1], storage, p, v);
    }
  }

  /** Whether the path is stored already or not, the storage but for it can be loaded first. */
  lemma StorageWithout(t: Json, order: seq<string>, storage: Storage, paths: set<string>, p: string, v: Json)
    returns (rest: seq<string>)
    requires Enumerates(order, storage) && storage.Keys <= paths && PrefixFree(paths)
    ensures NoRepeats(rest) && forall x :: x in rest <==> x in storage && x != p
    ensures Put(Load(t, order, storage), Split(p), v) == Put(Load(t, rest, storage), Split(p), v)
  {
    rest := order;
    if p in order {
      var i :| 0 <= i < |order| && order[i] == p;
      assert PrefixFree(set x | x in order);
      LoadedLast(t, order, storage, i);
      RestOf(order, i);
      rest := order[..i] + order[i + 1..];
      PutTwice(Load(t, rest, storage), Split(p), storage[p], v);
    }
  }

  lemma LoadAppend(t: Json, rest: seq<string>, storage: Storage, p: string)
    requires forall x :: x in rest + [p] ==> x in storage
    ensures forall x :: x in rest ==> x in storage
    ensures p in storage && Load(t, rest + [p], storage) == Put(Load(t, rest, storage), Split(p), storage[p])
  {
    assert (rest + [p])[..|rest|] == rest;
    assert forall x :: x in rest ==> x in rest + [p];
    assert p in rest + [p];
  }

  lemma EnumeratesWith(rest: seq<string>, storage: Storage, p: string, v: Json)
    requires NoRepeats(rest) && forall x :: x in rest <==> x in storage && x != p
    ensures Enumerates(rest + [p], storage[p := v])
  {
    var all := rest + [p];
    assert p !in rest;
    assert forall i :: 0 <= i < |rest| ==> all[i] == rest[i] && rest[i] in rest;
    assert forall x :: x in all <==> x in rest || x == p;
  }

  lemma StoreKeepsAgreement(t: Json, m: Json, written: Storage, paths: set<string>, p: string, v: Json)
    requires PrefixFree(paths) && p in paths && Agree(t, m, written, paths)
    ensures SetToPath(m, Split(p), v).Success?
    ensures Agree(t, SetToPath(m, Split(p), v).value, written[p := v], paths)
  {
    AllFitAfterPut(m, paths, p, v);
    var order :| Enumerates(order, written) && m == Load(t, order, written);
    var order' := WrittenLast(t, order, written, paths, p, v);
  }

  lemma WrittenLast(t: Json, order: seq<string>, written: Storage, paths: set<string>, p: string, v: Json)
    returns (order': seq<string>)
    requires Enumerates(order, written) && written.Keys <= paths && PrefixFree(paths)
    ensures Enumerates(order', written[p := v])
    ensures Load(t, order', written[p := v]) == Put(Load(t, order, written), Split(p), v)
  {
    var rest := StorageWithout(t, order, written, paths, p, v);
    LoadFrame(t, rest, written, p, v);
    EnumeratesWith(rest, written, p, v);
    LoadAppend(t, rest, written[p := v], p);
    order' := rest + [p];
  }

  lemma {:induction false} SessionAgrees(t: Json, s: Session, paths: set<string>, ops: seq<Op>)
    requires PrefixFree(paths) && Agree(t, s.settings, s.storage, paths)
    requires forall op :: op in ops ==> op.path in paths
    ensures StoreAll(s, ops).Success? && Agree(t, StoreAll(s, ops).value.settings, Written(s.storage, ops), paths)
    decreases |ops|
  {
    if ops != [] {
      var init, last := ops[..|ops| - 1], ops[|ops| - 1];
      assert last in ops;
      SessionAgrees(t, s, paths, init);
      StoreKeepsAgreement(t, StoreAll(s, init).value.settings, Written(s.storage, init), paths, last.path, last.value);
    }
  }

  // ---------- reloading ----------

  lemma {:induction false} PutSame(t: Json, ks: Keys, v: Json)
    requires Get(t, ks) == Some(v)
    ensures Put(t, ks, v) == t
    decreases |ks|
  {
    if ks != [] {
      PutSame(t.fields[ks[0]], ks[1..], v);
      assert t.fields[ks[0] := t.fields[ks[0]]] == t.fields;
    }
  }

  /** What is loaded is read back, and every other path of a prefix-free set reads as before. */
  lemma {:induction false} GetAfterLoad(t: Json, order: seq<string>, storage: Storage, p: string)
    requires (forall x :: x in order ==> x in storage) && PrefixFree((set x | x in order) + {p})
    ensures p in order ==> Get(Load(t, order, storage), Split(p)) == Some(storage[p])
    ensures p !in order ==> Get(Load(t, order, storage), Split(p)) == Get(t, Split(p))
    decreases |order|
  {
    if order != [] {
      var init, last := order[..|order| - 1], order[|order| - 1];
      assert PrefixFree((set x | x in init) + {p});
      GetAfterLoad(t, init, storage, p);
      assert last in (set x | x in order) + {p};
      GetAfterPut(Load(t, init, storage), Split(last), storage[last], Split(p));
    }
  }

  /** Loading what is there already changes nothing. */
  lemma {:induction false} LoadSame(t: Json, order: seq<string>, storage: Storage)
    requires forall p :: p in order ==> p in storage && Get(t, Split(p)) == Some(storage[p])
    ensures Load(t, order, storage) == t
    decreases |order|
  {
    if order != [] {
      LoadSame(t, order[..|order| - 1], storage);
      PutSame(t, Split(order[|order| - 1]), storage[order[|order| - 1]]);
    }
  }

  lemma RestIsFree(order: seq<string>, i: nat)
    requires i < |order| && NoRepeats(order) && PrefixFree(set x | x in order)
    ensures var rest := order[..i] + order[i + 1..];
            order[i] !in rest && PrefixFree((set x | x in rest) + {order[i]})
  {
    var rest := order[..i] + order[i + 1..];
    RestOf(order, i);
    assert (set x | x in rest) + {order[i]} == (set x | x in order);
  }

  /** A write is lost when its path is loaded afterwards. */
  lemma PutIsOverwritten(t: Json, order: seq<string>, storage: Storage, p: string, v: Json)
    requires NoRepeats(order) && (forall x :: x in order ==> x in storage) && p in order
    requires PrefixFree(set x | x in order)
    ensures Load(Put(t, Split(p), v), order, storage) == Load(t, order, storage)
  {
    var i :| 0 <= i < |order| && order[i] == p;
    LoadedLast(t, order, storage, i);
    LoadedLast(Put(t, Split(p), v), order, storage, i);
    RestIsFree(order, i);
    EarlierPutIsLost(t, order[..i] + order[i + 1..], storage, p, v, storage[p]);
  }

  lemma EarlierPutIsLost(t: Json, rest: seq<string>, storage: Storage, p: string, v: Json, w: Json)
    requires (forall x :: x in rest ==> x in storage) && p !in rest && PrefixFree((set x | x in rest) + {p})
    ensures Put(Load(Put(t, Split(p), v), rest, storage), Split(p), w) == Put(Load(t, rest, storage), Split(p), w)
  {
    PutAfterLoad(t, rest, storage, p, v);
    PutTwice(Load(t, rest, storage), Split(p), v, w);
  }

  lemma {:induction false} LoadIsOverwritten(t: Json, first: seq<string>, kept: Storage, order: seq<string>,
                                             written: Storage)
    requires NoRepeats(order) && (forall x :: x in order ==> x in written) && PrefixFree(set x | x in order)
    requires forall x :: x in first ==> x in kept && x in order
    ensures Load(Load(t, first, kept), order, written) == Load(t, order, written)
    decreases |first|
  {
    if first != [] {
      var init, p := first[..|first| - 1], first[|first| - 1];
      LoadIsOverwritten(t, init, kept, order, written);
      PutIsOverwritten(Load(t, init, kept), order, written, p, kept[p]);
    }
  }

  /** What a reload finds at a path. */
  function Restored(defaults: Json, kept: Storage, p: string): Option<Json> {
    if p in kept then Some(kept[p]) else Get(defaults, Split(p))
  }

  /** Every value last written is the one that was last stored, or, where nothing is stored, the
      default. */
  ghost predicate NothingLost(defaults: Json, kept: Storage, written: Storage) {
    forall p :: p in written ==> Restored(defaults, kept, p) == Some(written[p])
  }

  lemma LoadsAgreeIff(t: Json, order: seq<string>, written: Storage, reload: seq<string>, kept: Storage)
    requires Enumerates(order, written) && Enumerates(reload, kept) && kept.Keys <= written.Keys
    requires PrefixFree(written.Keys)
    ensures Load(t, reload, kept) == Load(t, order, written) <==> NothingLost(t, kept, written)
  {
    assert (set x | x in order) == written.Keys;
    forall p | p in written
      ensures Get(Load(t, reload, kept), Split(p)) == Restored(t, kept, p)
      ensures Get(Load(t, order, written), Split(p)) == Some(written[p])
    {
      assert PrefixFree((set x | x in reload) + {p}) && PrefixFree((set x | x in order) + {p});
      GetAfterLoad(t, reload, kept, p);
      GetAfterLoad(t, order, written, p);
    }
    if NothingLost(t, kept, written) {
      LoadIsOverwritten(t, reload, kept, order, written);
      LoadSame(Load(t, reload, kept), order, written);
    }
  }

  /** Mount from any storage, store any values any number of times, whether localStorage takes them
      or not, and reload with the keys in any order. If no two of the paths are comparable and the
      defaults leave room for them, nothing throws, and the reload rebuilds what was in memory if and
      only if every value last written is the one last stored or, where nothing is stored, the default. */
  lemma ReloadAgreesIff(defaults: Json, storage: Storage, order: seq<string>, paths: set<string>, ops: seq<Op>,
                        reload: seq<string>)
    requires Enumerates(order, storage) && storage.Keys <= paths
    requires PrefixFree(paths) && AllFit(defaults, paths)
    requires forall op :: op in ops ==> op.path in paths
    requires Enumerates(reload, Kept(storage, ops))
    ensures var m := Mount(defaults, order, storage);
            && m.Success?
            && var s := StoreAll(Session(m.value, storage), ops);
               && s.Success? && s.value.storage == Kept(storage, ops)
               && Mount(defaults, reload, s.value.storage).Success?
               && (Mount(defaults, reload, s.value.storage).value == s.value.settings <==>
                   NothingLost(defaults, Kept(storage, ops), Written(storage, ops)))
  {
    MountIsLoad(defaults, order, storage, paths);
    var s0 := Session(Load(defaults, order, storage), storage);
    assert Agree(defaults, s0.settings, storage, paths);
    SessionAgrees(defaults, s0, paths, ops);
    StorageIsKept(s0, ops);
    var kept, written := Kept(storage, ops), Written(storage, ops);
    var some :| Enumerates(some, written) && StoreAll(s0, ops).value.settings == Load(defaults, some, written);
    MountIsLoad(defaults, reload, kept, paths);
    LoadsAgreeIff(defaults, some, written, reload, kept);
  }

  /** Reload agrees with memory whenever localStorage takes every value. */
  lemma ReloadAgrees(defaults: Json, storage: Storage, order: seq<string>, paths: set<string>, ops: seq<Op>,
                     reload: seq<string>)
    requires Enumerates(order, storage) && storage.Keys <= paths
    requires PrefixFree(paths) && AllFit(defaults, paths)
    requires forall op :: op in ops ==> op.path in paths && op.stored
    requires Enumerates(reload, Kept(storage, ops))
    ensures var m := Mount(defaults, order, storage);
            && m.Success?
            && var s := StoreAll(Session(m.value, storage), ops);
               && s.Success? && s.value.storage == Kept(storage, ops)
               && Mount(defaults, reload, s.value.storage) == Success(s.value.settings)
  {
    ReloadAgreesIff(defaults, storage, order, paths, ops, reload);
    StorageIsKept(Session(Mount(defaults, order, storage).value, storage), ops);
  }

  /** A value that localStorage did not take is lost on reload unless it is the default anyway. */
  lemma UnstoredIsLost(defaults: Json, p: string, v: Json)
    requires Fits(defaults, Split(p))
    ensures var s := StoreAll(Session(defaults, map[]), [Op(p, v, false)]);
            && s.Success?
            && (Mount(defaults, [], s.value.storage) == Success(s.value.settings) <==>
                Get(defaults, Split(p)) == Some(v))
  {
    var ops := [Op(p, v, false)];
    assert ops[..0] == [] && Kept(map[], []) == map[] && Written(map[], []) == map[];
    assert Kept(map[], ops) == map[] && Written(map[], ops) == map[p := v];
    ReloadAgreesIff(defaults, map[], [], {p}, ops, []);
    assert NothingLost(defaults, map[], map[p := v]) <==> Restored(defaults, map[], p) == Some(v);
  }

  // ---------- when the order of the keys matters ----------

  /** Whatever is stored under these paths, the order of the keys makes no difference. */
  ghost predicate AnyOrderMountsAlike(t: Json, paths: set<string>) {
    forall storage: Storage, order1, order2 ::
      storage.Keys <= paths && Enumerates(order1, storage) && Enumerates(order2, storage) ==>
        Mount(t, order1, storage) == Mount(t, order2, storage)
  }

  lemma {:induction false} PrefixFitsAfterPut(t: Json, q: Keys, v: Json, p: Keys)
    requires p < q && Fits(t, q)
    ensures Fits(Put(t, q, v), p)
    decreases |p|
  {
    if |p| > 1 {
      assert p[0] == q[0] && p[1..] < q[1..];
      if Child(t, q[0]).Null? {
        PutOnEmpty(q[1..], v);
        PrefixFitsAfterPut(Obj(map[]), q[1..], v, p[1..]);
      } else {
        PrefixFitsAfterPut(Child(t, q[0]), q[1..], v, p[1..]);
      }
    }
  }

  lemma MountTwo(t: Json, p: string, q: string, storage: Storage)
    requires p in storage && q in storage
    ensures Mount(t, [p, q], storage) ==
            match SetToPath(t, Split(p), storage[p])
            case Failure(e) => Failure(e)
            case Success(m) => SetToPath(m, Split(q), storage[q])
  {
    assert [p, q][..1] == [p] && [p][..0] == [];
    assert Mount(t, [p], storage) == SetToPath(t, Split(p), storage[p]);
  }

  /** With a primitive stored under a path and anything under an extension of it, the mount throws in
      the one order and succeeds in the other. */
  lemma OrderMatters(t: Json, p: string, q: string, storage: Storage)
    requires Split(p) < Split(q) && Fits(t, Split(p)) && Fits(t, Split(q))
    requires p in storage && q in storage && storage[p].Atom?
    ensures Mount(t, [p, q], storage).Failure? && Mount(t, [q, p], storage).Success?
  {
    MountTwo(t, p, q, storage);
    MountTwo(t, q, p, storage);
    SetSucceedsIff(t, Split(p), storage[p]);
    SetSucceedsIff(t, Split(q), storage[q]);
    PrimitiveInTheWay(t, Split(p), storage[p], Split(q));
    SetSucceedsIff(Put(t, Split(p), storage[p]), Split(q), storage[q]);
    PrefixFitsAfterPut(t, Split(q), storage[q], Split(p));
    SetSucceedsIff(Put(t, Split(q), storage[q]), Split(p), storage[p]);
  }

  lemma ComparableDiffer(t: Json, paths: set<string>, p: string, q: string)
    requires AllFit(t, paths) && p in paths && q in paths && Split(p) < Split(q)
    ensures !AnyOrderMountsAlike(t, paths)
  {
    var storage: Storage := map[p := Atom("x"), q := Null];
    assert p != q;
    TwoKeys(p, q, storage);
    TwoKeys(q, p, storage);
    OrderMatters(t, p, q, storage);
    OrdersDiffer(t, paths, storage, [p, q], [q, p]);
  }

  lemma OrdersDiffer(t: Json, paths: set<string>, storage: Storage, order1: seq<string>, order2: seq<string>)
    requires storage.Keys <= paths && Enumerates(order1, storage) && Enumerates(order2, storage)
    ensures Mount(t, order1, storage) != Mount(t, order2, storage) ==> !AnyOrderMountsAlike(t, paths)
  {
  }

  lemma TwoKeys(p: string, q: string, storage: Storage)
    requires p != q && storage.Keys == {p, q}
    ensures Enumerates([p, q], storage)
  {
  }

  /** For defaults with room for the paths: all orders of the keys mount alike, whatever is stored
      under the paths, if and only if none of them is a prefix of another. */
  lemma OrderIsIrrelevantIff(t: Json, paths: set<string>)
    requires AllFit(t, paths)
    ensures AnyOrderMountsAlike(t, paths) <==> PrefixFree(paths)
  {
    if PrefixFree(paths) {
      forall storage: Storage, order1, order2
        | storage.Keys <= paths && Enumerates(order1, storage) && Enumerates(order2, storage)
        ensures Mount(t, order1, storage) == Mount(t, order2, storage)
      {
        assert (set x | x in order1) <= paths;
        MountIsLoad(t, order1, storage, paths);
        MountIsLoad(t, order2, storage, paths);
        OrderIsIrrelevant(t, order1, order2, storage);
      }
    } else {
      var p, q :| p in paths && q in paths && p != q && !Incomparable(Split(p), Split(q));
      if Split(p) == Split(q) {
        SplitIsInjective(p, q);
      } else if Split(p) < Split(q) {
        ComparableDiffer(t, paths, p, q);
      } else {
        ComparableDiffer(t, paths, q, p);
      }
    }
  }

  // ---------- the provider ----------

  /** The provider's state and localStorage. */
  class Provider {
    var settings: Json
    var storage: Storage
    const defaults: Json

    constructor (defaults: Json, storage: Storage)
      ensures settings == defaults && this.storage == storage && this.defaults == defaults
    {
      settings := defaults;
      this.storage := storage;
      this.defaults := defaults;
    }

    /** The effect after mount; when setToPath throws, the settings stay as they were. */
    method OnMount(order: seq<string>) returns (ok: bool)
      requires forall p :: p in order ==> p in storage
      modifies this
      ensures storage == old(storage)
      ensures ok <==> Mount(defaults, order, storage).Success?
      ensures settings == if ok then Mount(defaults, order, storage).value else old(settings)
    {
      var init := defaults;
      for i := 0 to |order|
        invariant settings == old(settings) && storage == old(storage)
        invariant Mount(defaults, order[..i], storage) == Success(init)
      {
        assert order[..i + 1][..i] == order[..i];
        var r := SetToPath(init, Split(order[i]), storage[order[i]]);
        if r.Failure? {
          MountFails(defaults, order, storage, i + 1);
          return false;
        }
        init := r.value;
      }
      assert order[..|order|] == order;
      settings := init;
      return true;
    }

    /** When localStorage does not take the value, storeLeaf logs that and memory has it alone. */
    method OnStoreOption(path: string, value: Json, stored: bool) returns (ok: bool)
      modifies this
      ensures ok <==> Fits(old(settings), Split(path))
      ensures ok <==> StoreOption(old(Session(settings, storage)), Op(path, value, stored)).Success?
      ensures Session(settings, storage) ==
              if ok then StoreOption(old(Session(settings, storage)), Op(path, value, stored)).value
              else old(Session(settings, storage))
      ensures ok ==> Get(settings, Split(path)) == Some(value)
      ensures !stored ==> storage == old(storage)
    {
      SetSucceedsIff(settings, Split(path), value);
      GetAfterPut(settings, Split(path), value, []);
      var r := SetToPath(settings, Split(path), value);
      if r.Failure? {
        return false;
      }
      settings := r.value;
      if stored {
        storage := storage[path := value];
      }
      return true;
    }
  }

  lemma {:induction false} MountFails(t: Json, order: seq<string>, storage: Storage, i: nat)
    requires i <= |order| && (forall p :: p in order ==> p in storage)
    requires Mount(t, order[..i], storage).Failure?
    ensures Mount(t, order, storage).Failure?
    decreases |order| - i
  {
    if i < |order| {
      assert order[..i + 1][..i] == order[..i];
      MountFails(t, order, storage, i + 1);
    } else {
      assert order[..i] == order;
    }
  }
}
