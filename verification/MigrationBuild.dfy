/**
 * Checking a module's migration files: which sets of files are accepted, that
 * their order does not matter, and what the checked set then is.
 */
module MigrationBuild {
  import opened Options
  import opened Migration

  // A file, its name read: nothing if the name is not a migration's.
  datatype File = File(head: Option<Head>, sql: string)

  datatype Mig = Mig(version: nat, name: string, up: Option<string>, down: Option<string>)

  type Table = map<nat, Mig>

  function HalfOf(m: Mig, up: bool): Option<string> {
    if up then m.up else m.down
  }

  // ----- What a good set of files is, order apart ---------------------------

  function V(f: File): nat {
    if f.head.Some? then f.head.value.version else 0
  }

  function N(f: File): string {
    if f.head.Some? then f.head.value.name else ""
  }

  predicate U(f: File) {
    f.head.Some? && f.head.value.up
  }

  // The halves of versions there are.
  ghost function Halves(files: seq<File>): set<(nat, bool)> {
    set f | f in files :: (V(f), U(f))
  }

  ghost predicate Has(files: seq<File>, v: nat, up: bool) {
    (v, up) in Halves(files)
  }

  ghost predicate HasVersion(files: seq<File>, v: nat) {
    Has(files, v, true) || Has(files, v, false)
  }

  ghost predicate Alike(f: File, g: File) {
    V(f) == V(g) ==> N(f) == N(g) && (U(f) == U(g) ==> f == g)
  }

  // Every name is a migration's, a version has one name, and no half of a
  // version comes twice.
  ghost predicate Consistent(files: seq<File>) {
    && (forall f :: f in files ==> 0 < V(f) <= MAX)
    && (forall f, g :: f in files && g in files ==> Alike(f, g))
    && (forall f :: f in files ==> multiset(files)[f] == 1)
  }

  ghost predicate AllPaired(files: seq<File>) {
    forall v, up :: Has(files, v, up) ==> Has(files, v, !up)
  }

  ghost predicate NoGaps(files: seq<File>) {
    forall v: nat :: HasVersion(files, v) && v > 1 ==> HasVersion(files, v - 1)
  }

  // And every version has both its halves, and the one before it.
  ghost predicate Good(files: seq<File>) {
    Consistent(files) && AllPaired(files) && NoGaps(files)
  }

  lemma SameMembers(files: seq<File>, other: seq<File>)
    requires multiset(files) == multiset(other)
    ensures forall f :: f in files <==> f in other
  {
    forall f ensures f in files <==> f in other {
      assert f in files <==> f in multiset(files);
      assert f in other <==> f in multiset(other);
    }
  }

  lemma GoodStays(files: seq<File>, other: seq<File>)
    requires multiset(files) == multiset(other) && Good(files)
    ensures Good(other)
  {
    SameMembers(files, other);
    assert Halves(files) == Halves(other);
    ConsistentStays(files, other);
    assert AllPaired(other) by {
      forall v, up | Has(other, v, up) ensures Has(other, v, !up) {
        assert Has(files, v, up) && Has(files, v, !up);
      }
    }
    assert NoGaps(other) by {
      forall v: nat | HasVersion(other, v) && v > 1 ensures HasVersion(other, v - 1) {
        assert HasVersion(files, v) && HasVersion(files, v - 1);
      }
    }
  }

  lemma ConsistentStays(files: seq<File>, other: seq<File>)
    requires multiset(files) == multiset(other) && Consistent(files)
    ensures Consistent(other)
  {
    SameMembers(files, other);
  }

  // The order of the files makes no difference.
  lemma OrderDoesNotMatter(files: seq<File>, other: seq<File>)
    requires multiset(files) == multiset(other)
    ensures Good(files) <==> Good(other)
  {
    if Good(files) {
      GoodStays(files, other);
    }
    if Good(other) {
      GoodStays(other, files);
    }
  }

  // ----- Filling the table --------------------------------------------------

  function Put(t: Table, h: Head, sql: string): Option<Table> {
    var m := if h.version in t then t[h.version] else Mig(h.version, h.name, None, None);
    if h.version !in t && |t| >= MAX then None
    else if m.name != h.name then None
    else if HalfOf(m, h.up).Some? then None
    else Some(t[h.version := if h.up then m.(up := Some(sql)) else m.(down := Some(sql))])
  }

  function Fill(files: seq<File>): Option<Table> {
    if files == [] then
      Some(map[])
    else
      var n := |files| - 1;
      match Fill(files[..n])
      case None => None
      case Some(t) =>
        match files[n].head
        case None => None
        case Some(h) => Put(t, h, files[n].sql)
  }

  ghost predicate Stored(t: Table, f: File) {
    && V(f) > 0 && V(f) in t && t[V(f)].name == N(f) && HalfOf(t[V(f)], U(f)) == Some(f.sql)
  }

  ghost predicate From(files: seq<File>, v: nat, up: bool, m: Mig) {
    HalfOf(m, up).Some? ==> exists f ::
        f in files && V(f) == v && U(f) == up && N(f) == m.name && f.sql == HalfOf(m, up).value
  }

  ghost predicate Tabled(files: seq<File>, t: Table) {
    && |t| <= MAX
    && (forall f :: f in files ==> Stored(t, f))
    && (forall v :: v in t ==> t[v].version == v > 0 && (t[v].up.Some? || t[v].down.Some?))
    && (forall v :: v in t ==> From(files, v, true, t[v]) && From(files, v, false, t[v]))
  }

  ghost predicate Once(files: seq<File>) {
    forall i, j :: 0 <= i < j < |files| ==> V(files[i]) != V(files[j]) || U(files[i]) != U(files[j])
  }

  // Every head that was read has a version.
  ghost predicate Read(files: seq<File>) {
    forall f :: f in files && f.head.Some? ==> f.head.value.version > 0
  }

  lemma PutStored(files: seq<File>, t: Table, f: File, h: Head)
    requires Tabled(files, t) && f.head == Some(h) && h.version > 0 && Put(t, h, f.sql).Some?
    ensures forall g :: g in files + [f] ==> Stored(Put(t, h, f.sql).value, g)
    ensures forall g :: g in files ==> V(g) != V(f) || U(g) != U(f)
  {
    var t1 := Put(t, h, f.sql).value;
    forall g | g in files ensures Stored(t1, g) && (V(g) != V(f) || U(g) != U(f)) {
      assert Stored(t, g);
    }
    assert Stored(t1, f);
  }

  lemma PutFrom(files: seq<File>, t: Table, f: File, h: Head, v: nat, up: bool)
    requires Tabled(files, t) && f.head == Some(h) && h.version > 0 && Put(t, h, f.sql).Some?
    requires v in Put(t, h, f.sql).value
    ensures From(files + [f], v, up, Put(t, h, f.sql).value[v])
  {
    var t1, all := Put(t, h, f.sql).value, files + [f];
    assert forall g :: g in files ==> g in all;
    if HalfOf(t1[v], up).Some? {
      if v == h.version && up == h.up {
        assert f in all;
      } else {
        assert From(files, v, up, t[v]);
      }
    }
  }

  lemma PutTabled(files: seq<File>, t: Table, f: File, h: Head)
    requires Tabled(files, t) && f.head == Some(h) && h.version > 0 && Put(t, h, f.sql).Some?
    ensures Tabled(files + [f], Put(t, h, f.sql).value)
  {
    PutStored(files, t, f, h);
    forall v | v in Put(t, h, f.sql).value
      ensures From(files + [f], v, true, Put(t, h, f.sql).value[v])
          && From(files + [f], v, false, Put(t, h, f.sql).value[v])
    {
      PutFrom(files, t, f, h, v, true);
      PutFrom(files, t, f, h, v, false);
    }
  }

  lemma OnceMore(files: seq<File>, f: File)
    requires Once(files) && forall g :: g in files ==> V(g) != V(f) || U(g) != U(f)
    ensures Once(files + [f])
  {
    var all := files + [f];
    assert forall i :: 0 <= i < |files| ==> all[i] == files[i] && files[i] in files;
  }

  lemma {:induction false} FillTabled(files: seq<File>)
    requires Read(files) && Fill(files).Some?
    ensures Tabled(files, Fill(files).value) && Once(files)
  {
    if files != [] {
      var n := |files| - 1;
      var init, last := files[..n], files[n];
      assert files == init + [last] && last in files;
      FillTabled(init);
      PutStored(init, Fill(init).value, last, last.head.value);
      PutTabled(init, Fill(init).value, last, last.head.value);
      OnceMore(init, last);
    }
  }

  lemma {:induction false} CountOne(files: seq<File>, f: File)
    requires Once(files) && f in files
    ensures multiset(files)[f] == 1
  {
    var n := |files| - 1;
    var init, last := files[..n], files[n];
    assert files == init + [last];
    assert multiset(files) == multiset(init) + multiset{last};
    if f in init {
      var i :| 0 <= i < n && init[i] == f;
      assert files[i] == f;
      CountOne(init, f);
    } else {
      assert multiset(init)[f] == 0;
    }
  }

  lemma OnceIff(files: seq<File>)
    requires Once(files)
    ensures forall f :: f in files ==> multiset(files)[f] == 1
    ensures forall f, g :: f in files && g in files && V(f) == V(g) && U(f) == U(g) ==> f == g
  {
    forall f | f in files ensures multiset(files)[f] == 1 {
      CountOne(files, f);
    }
    forall f, g | f in files && g in files && V(f) == V(g) && U(f) == U(g) ensures f == g {
      var i :| 0 <= i < |files| && files[i] == f;
      var j :| 0 <= j < |files| && files[j] == g;
      assert i == j;
    }
  }

  // ----- Numbers from one up ------------------------------------------------

  ghost function UpTo(n: nat): set<nat> {
    if n == 0 then {} else UpTo(n - 1) + {n}
  }

  lemma {:induction false} UpToIs(n: nat)
    ensures |UpTo(n)| == n && forall v :: v in UpTo(n) <==> 0 < v <= n
  {
    if n > 0 {
      UpToIs(n - 1);
    }
  }

  lemma {:induction false} SubsetSize(a: set<nat>, b: set<nat>)
    requires a <= b
    ensures |a| <= |b| && (|a| == |b| ==> a == b)
  {
    if x :| x in a {
      SubsetSize(a - {x}, b - {x});
      assert a == (a - {x}) + {x} && b == (b - {x}) + {x};
    } else {
      assert b != {} ==> |b| > 0;
    }
  }

  lemma KeysSize(t: Table)
    ensures |t.Keys| == |t|
  {
  }

  lemma {:induction false} ChainDown(keys: set<nat>, v: nat)
    requires v in keys && v > 0 && forall k :: k in keys && k > 1 ==> k - 1 in keys
    ensures UpTo(v) <= keys
  {
    if v > 1 {
      ChainDown(keys, v - 1);
    }
  }

  // Every number has the one before it exactly when none is beyond how many
  // there are.
  lemma GaplessIff(keys: set<nat>)
    requires forall k :: k in keys ==> k > 0
    ensures (forall k :: k in keys && k > 1 ==> k - 1 in keys) <==> (forall k :: k in keys ==> k <= |keys|)
  {
    if forall k :: k in keys && k > 1 ==> k - 1 in keys {
      forall k | k in keys ensures k <= |keys| {
        ChainDown(keys, k);
        UpToIs(k);
        SubsetSize(UpTo(k), keys);
      }
    }
    if forall k :: k in keys ==> k <= |keys| {
      UpToIs(|keys|);
      SubsetSize(keys, UpTo(|keys|));
    }
  }

  // ----- What is accepted ---------------------------------------------------

  ghost predicate Bounded(t: Table) {
    forall v :: v in t ==> v <= |t|
  }

  ghost predicate Gapless(t: Table) {
    forall v :: v in t && v > 1 ==> v - 1 in t
  }

  ghost predicate Paired(t: Table) {
    forall v :: v in t ==> t[v].up.Some? && t[v].down.Some?
  }

  ghost predicate Complete(t: Table) {
    Bounded(t) && Paired(t)
  }

  lemma BoundedIff(t: Table)
    requires forall v :: v in t ==> v > 0
    ensures Bounded(t) <==> Gapless(t)
  {
    var keys := t.Keys;
    KeysSize(t);
    GaplessIff(keys);
    assert forall v :: v in t <==> v in keys;
  }

  // More versions than there may be, and yet none beyond the last.
  lemma TooMany(files: seq<File>, t: Table, v: nat)
    requires Tabled(files, t) && v !in t && |t| >= MAX
    ensures !(0 < v <= MAX) || exists f :: f in files && V(f) > MAX
  {
    if 0 < v <= MAX {
      if forall k :: k in t ==> k <= MAX {
        KeysSize(t);
        UpToIs(MAX);
        SubsetSize(t.Keys, UpTo(MAX) - {v});
      } else {
        var k :| k in t && k > MAX;
        assert From(files, k, true, t[k]) && From(files, k, false, t[k]);
      }
    }
  }

  // A half that clashes with one already there.
  lemma Clashes(files: seq<File>, g: File, f: File)
    requires g in files && V(g) == V(f) && (N(g) != N(f) || U(g) == U(f))
    ensures !Consistent(files + [f])
  {
    var all := files + [f];
    assert f in all && g in all;
    if g == f {
      assert multiset(all) == multiset(files) + multiset{f};
      assert multiset(all)[f] >= 2;
    } else {
      assert !Alike(f, g);
    }
  }

  lemma PutFails(files: seq<File>, t: Table, f: File, h: Head)
    requires Tabled(files, t) && f.head == Some(h) && Put(t, h, f.sql).None?
    ensures !Consistent(files + [f])
  {
    var all := files + [f];
    assert f in all && forall g :: g in files ==> g in all;
    if h.version !in t {
      TooMany(files, t, h.version);
    } else {
      var m := t[h.version];
      assert From(files, h.version, true, m) && From(files, h.version, false, m);
      var up := if m.name != h.name then m.up.Some? else h.up;
      var g :| g in files && V(g) == h.version && U(g) == up && N(g) == m.name && g.sql == HalfOf(m, up).value;
      Clashes(files, g, f);
    }
  }

  lemma ConsistentPrefix(files: seq<File>, f: File)
    requires Consistent(files + [f])
    ensures Consistent(files)
  {
    var all := files + [f];
    assert forall g :: g in files ==> g in all;
    assert multiset(all) == multiset(files) + multiset{f};
  }

  lemma {:induction false} FillFails(files: seq<File>)
    requires Read(files) && Fill(files).None?
    ensures !Consistent(files)
  {
    var n := |files| - 1;
    var init, last := files[..n], files[n];
    assert files == init + [last] && last in files;
    if Fill(init).None? {
      FillFails(init);
      if Consistent(init + [last]) {
        ConsistentPrefix(init, last);
      }
    } else if last.head.Some? {
      FillTabled(init);
      PutFails(init, Fill(init).value, last, last.head.value);
    }
  }

  lemma TabledVersions(files: seq<File>, t: Table)
    requires Tabled(files, t)
    ensures forall v :: v in t <==> HasVersion(files, v)
  {
    forall v | v in t ensures HasVersion(files, v) {
      assert From(files, v, true, t[v]) && From(files, v, false, t[v]);
    }
    forall v | HasVersion(files, v) ensures v in t {
      var f :| f in files && V(f) == v;
      assert Stored(t, f);
    }
  }

  lemma TabledHalves(files: seq<File>, t: Table, v: nat, up: bool)
    requires Tabled(files, t) && v in t
    ensures HalfOf(t[v], up).Some? <==> Has(files, v, up)
  {
    assert From(files, v, up, t[v]);
    if Has(files, v, up) {
      var f :| f in files && V(f) == v && U(f) == up;
      assert Stored(t, f);
    }
  }

  lemma PairedIff(files: seq<File>, t: Table)
    requires Tabled(files, t)
    ensures AllPaired(files) <==> Paired(t)
  {
    TabledVersions(files, t);
    forall v | v in t ensures (t[v].up.Some? <==> Has(files, v, true)) && (t[v].down.Some? <==> Has(files, v, false)) {
      TabledHalves(files, t, v, true);
      TabledHalves(files, t, v, false);
    }
    if forall v :: v in t ==> t[v].up.Some? && t[v].down.Some? {
      forall f | f in files ensures Has(files, V(f), !U(f)) {
        assert Has(files, V(f), U(f));
        assert V(f) in t;
      }
    }
    if AllPaired(files) {
      forall v | v in t ensures t[v].up.Some? && t[v].down.Some? {
        assert HasVersion(files, v);
        var f :| f in files && V(f) == v;
        assert Has(files, V(f), !U(f)) && Has(files, V(f), U(f));
      }
    }
  }

  lemma GapIff(files: seq<File>, t: Table)
    requires Tabled(files, t)
    ensures NoGaps(files) <==> Gapless(t)
  {
    TabledVersions(files, t);
    if NoGaps(files) {
      forall v | v in t && v > 1 ensures v - 1 in t {
        assert HasVersion(files, v);
        var f :| f in files && V(f) == v;
        assert HasVersion(files, V(f) - 1);
      }
    }
    if forall v :: v in t && v > 1 ==> v - 1 in t {
      forall f | f in files && V(f) > 1 ensures HasVersion(files, V(f) - 1) {
        assert Has(files, V(f), U(f));
        assert V(f) in t && V(f) - 1 in t;
      }
    }
  }

  lemma FilledConsistent(files: seq<File>, t: Table)
    requires Tabled(files, t) && Once(files) && Bounded(t)
    ensures Consistent(files)
  {
    OnceIff(files);
    forall f | f in files ensures 0 < V(f) <= MAX {
      assert Stored(t, f);
    }
    forall f, g | f in files && g in files ensures Alike(f, g) {
      assert Stored(t, f) && Stored(t, g);
    }
  }

  lemma FilledGood(files: seq<File>, t: Table)
    requires Tabled(files, t) && Once(files)
    ensures Good(files) <==> Complete(t)
  {
    BoundedIff(t);
    PairedIff(files, t);
    GapIff(files, t);
    if Bounded(t) {
      FilledConsistent(files, t);
    }
  }

  // The table can be filled and is complete exactly when the files are good.
  lemma GoodIff(files: seq<File>)
    requires Read(files)
    ensures Good(files) <==> Fill(files).Some? && Complete(Fill(files).value)
  {
    if Fill(files).Some? {
      FillTabled(files);
      FilledGood(files, Fill(files).value);
    } else {
      FillFails(files);
    }
  }

  // ----- Building -----------------------------------------------------------

  // What the build embeds: a file name and what is in the file.
  datatype Source = Source(name: string, sql: string)

  function Items(files: seq<Source>): seq<File> {
    if files == [] then []
    else Items(files[..|files| - 1]) + [File(Parse(files[|files| - 1].name), files[|files| - 1].sql)]
  }

  lemma {:induction false} ItemsRead(files: seq<Source>)
    ensures Read(Items(files))
  {
    if files != [] {
      var n := |files| - 1;
      ItemsRead(files[..n]);
      var h := Parse(files[n].name);
      if h.Some? {
        NameIff(files[n].name, h.value);
      }
    }
  }

  ghost predicate Slots(slots: seq<Mig>, t: Table) {
    && |slots| == |t|
    && (forall i, j :: 0 <= i < j < |slots| ==> slots[i].version != slots[j].version)
    && (forall i :: 0 <= i < |slots| ==> slots[i].version in t && t[slots[i].version] == slots[i])
    && (forall v :: v in t ==> t[v] in slots && t[v].version == v)
  }

  lemma SlotReplaced(slots: seq<Mig>, t: Table, i: nat, m: Mig)
    requires Slots(slots, t) && i < |slots| && m.version == slots[i].version
    ensures Slots(slots[i := m], t[m.version := m])
  {
    var u, s1 := t[m.version := m], slots[i := m];
    assert u.Keys == t.Keys;
    assert |u| == |u.Keys| == |t.Keys| == |t|;
    forall v | v in u ensures u[v] in s1 && u[v].version == v {
      if v == m.version {
        assert s1[i] == m;
      } else {
        var j :| 0 <= j < |slots| && slots[j] == t[v];
        assert s1[j] == slots[j];
      }
    }
  }

  lemma SlotAdded(slots: seq<Mig>, t: Table, m: Mig)
    requires Slots(slots, t) && m.version !in t
    ensures Slots(slots + [m], t[m.version := m])
  {
    var u, s1 := t[m.version := m], slots + [m];
    assert u.Keys == t.Keys + {m.version};
    assert |u| == |u.Keys| == |t.Keys| + 1 == |t| + 1;
    assert s1[|slots|] == m;
    forall v | v in u && v != m.version ensures u[v] in s1 {
      assert t[v] in slots;
    }
  }

  // One file into the slots: a new one, or the other half of one there is.
  method Place(slots: seq<Mig>, h: Head, sql: string, ghost t: Table) returns (ok: bool, r: seq<Mig>)
    requires Slots(slots, t)
    ensures ok == Put(t, h, sql).Some?
    ensures ok ==> Slots(r, Put(t, h, sql).value)
  {
    r := slots;
    var i := 0;
    while i < |slots| && slots[i].version != h.version
      invariant i <= |slots| && forall j :: 0 <= j < i ==> slots[j].version != h.version
    {
      i := i + 1;
    }
    assert i < |slots| <==> h.version in t by {
      if h.version in t {
        assert t[h.version] in slots;
      }
    }
    if i == |slots| {
      if |slots| >= MAX {
        return false, r;
      }
      var m := Mig(h.version, h.name, None, None);
      m := if h.up then m.(up := Some(sql)) else m.(down := Some(sql));
      SlotAdded(slots, t, m);
      return true, slots + [m];
    }
    var m := slots[i];
    if m.name != h.name {
      return false, r;
    }
    if HalfOf(m, h.up).Some? {
      return false, r;
    }
    m := if h.up then m.(up := Some(sql)) else m.(down := Some(sql));
    SlotReplaced(slots, t, i, m);
    return true, slots[i := m];
  }

  ghost predicate Rising(ms: seq<Mig>) {
    forall i, j :: 0 <= i < j < |ms| ==> ms[i].version < ms[j].version
  }

  method Insert(ms: seq<Mig>, m: Mig) returns (r: seq<Mig>)
    requires Rising(ms) && forall k :: k in ms ==> k.version != m.version
    ensures Rising(r) && |r| == |ms| + 1 && forall k :: k in r <==> k in ms || k == m
  {
    var i := 0;
    while i < |ms| && ms[i].version < m.version
      invariant i <= |ms| && forall j :: 0 <= j < i ==> ms[j].version < m.version
    {
      i := i + 1;
    }
    r := ms[..i] + [m] + ms[i..];
    assert i < |ms| ==> ms[i] in ms;
    assert ms == ms[..i] + ms[i..];
    Inserted(ms, i, m);
  }

  lemma Inserted(ms: seq<Mig>, i: nat, m: Mig)
    requires Rising(ms) && i <= |ms|
    requires forall j :: 0 <= j < i ==> ms[j].version < m.version
    requires i < |ms| ==> m.version < ms[i].version
    ensures Rising(ms[..i] + [m] + ms[i..])
  {
    var r := ms[..i] + [m] + ms[i..];
    forall j, k | 0 <= j < k < |r| ensures r[j].version < r[k].version {
      assert j != i ==> r[j] == ms[if j < i then j else j - 1];
      assert k != i ==> r[k] == ms[if k < i then k else k - 1];
      assert j == i ==> i < |ms| && (k - 1 == i || ms[i].version < ms[k - 1].version);
    }
  }

  method Sort(slots: seq<Mig>) returns (r: seq<Mig>)
    requires forall i, j :: 0 <= i < j < |slots| ==> slots[i].version != slots[j].version
    ensures Rising(r) && |r| == |slots| && forall m :: m in r <==> m in slots
  {
    r := [];
    for i := 0 to |slots|
      invariant Rising(r) && |r| == i
      invariant forall m :: m in r <==> m in slots[..i]
    {
      assert slots[..i + 1] == slots[..i] + [slots[i]];
      r := Insert(r, slots[i]);
    }
    assert slots[..|slots|] == slots;
  }

  lemma SortedSlots(slots: seq<Mig>, r: seq<Mig>, t: Table)
    requires Slots(slots, t) && Rising(r) && |r| == |slots| && forall m :: m in r <==> m in slots
    ensures Slots(r, t)
  {
    forall i | 0 <= i < |r| ensures r[i].version in t && t[r[i].version] == r[i] {
      assert r[i] in slots;
    }
  }

  lemma {:induction false} RisingLow(r: seq<Mig>, i: nat)
    requires Rising(r) && i < |r| && r[0].version > 0
    ensures r[i].version >= i + 1
  {
    if i > 0 {
      RisingLow(r, i - 1);
    }
  }

  lemma {:induction false} RisingHigh(r: seq<Mig>, i: nat, top: nat)
    requires Rising(r) && i < |r| && r[|r| - 1].version <= top
    ensures r[i].version + (|r| - 1 - i) <= top
    decreases |r| - i
  {
    if i < |r| - 1 {
      RisingHigh(r, i + 1, top);
    }
  }

  // In order, the versions run from one up exactly when none is beyond how
  // many there are.
  lemma InOrderIff(r: seq<Mig>, t: Table)
    requires Slots(r, t) && Rising(r) && forall v :: v in t ==> v > 0
    ensures Bounded(t) <==> forall i :: 0 <= i < |r| ==> r[i].version == i + 1
  {
    if Bounded(t) {
      forall i | 0 <= i < |r| ensures r[i].version == i + 1 {
        RisingLow(r, i);
        RisingHigh(r, i, |t|);
      }
    }
    if forall i :: 0 <= i < |r| ==> r[i].version == i + 1 {
      forall v | v in t ensures v <= |t| {
        var i :| 0 <= i < |r| && r[i] == t[v];
      }
    }
  }

  const OWNER_LEN := 64

  datatype Built = Nothing | Refused | Set(list: seq<Mig>)

  ghost predicate Whole(list: seq<Mig>) {
    forall i :: 0 <= i < |list| ==> list[i].version == i + 1 && list[i].up.Some? && list[i].down.Some?
  }

  // What the checked set holds: version i + 1 at index i, each with the name
  // and the SQL of its two files.
  ghost predicate Lists(list: seq<Mig>, files: seq<File>) {
    && Whole(list)
    && (forall v: nat :: 0 < v <= |list| ==> HasVersion(files, v))
    && (forall f :: f in files ==>
            0 < V(f) <= |list| && list[V(f) - 1].name == N(f) && HalfOf(list[V(f) - 1], U(f)) == Some(f.sql))
  }

  method Collect(files: seq<Source>) returns (ok: bool, slots: seq<Mig>)
    ensures ok == Fill(Items(files)).Some?
    ensures ok ==> Slots(slots, Fill(Items(files)).value)
  {
    slots := [];
    ghost var t: Table := map[];
    for i := 0 to |files|
      invariant Fill(Items(files[..i])) == Some(t) && Slots(slots, t)
    {
      assert files[..i + 1][..i] == files[..i];
      ghost var before, all := Items(files[..i]), Items(files[..i + 1]);
      assert all[..|before|] == before;
      var h := ParseFile(files[i].name);
      if h.None? {
        FillStops(files, i);
        return false, slots;
      }
      ok, slots := Place(slots, h.value, files[i].sql, t);
      if !ok {
        FillStops(files, i);
        return false, slots;
      }
      t := Put(t, h.value, files[i].sql).value;
    }
    assert files[..|files|] == files;
    return true, slots;
  }

  lemma {:induction false} FillStops(files: seq<Source>, i: nat)
    requires i < |files| && Fill(Items(files[..i + 1])).None?
    ensures Fill(Items(files)).None?
    decreases |files|
  {
    var n := |files| - 1;
    if i == n {
      assert files[..i + 1] == files;
    } else {
      assert files[..n][..i + 1] == files[..i + 1];
      FillStops(files[..n], i);
      assert Items(files)[..|Items(files)| - 1] == Items(files[..n]);
    }
  }

  // The files are accepted exactly when they are a good set, in whatever order.
  method Build(owner: string, files: seq<Source>) returns (r: Built)
    ensures r == Nothing <==> files == []
    ensures r.Set? <==> files != [] && 0 < |owner| <= OWNER_LEN && Good(Items(files))
    ensures r.Set? ==> Lists(r.list, Items(files))
  {
    if files == [] {
      return Nothing;
    }
    if owner == "" || |owner| > OWNER_LEN {
      return Refused;
    }
    ghost var items := Items(files);
    ItemsRead(files);
    GoodIff(items);
    var ok, slots := Collect(files);
    if !ok {
      return Refused;
    }
    ghost var t := Fill(items).value;
    FillTabled(items);
    var list := Sort(slots);
    SortedSlots(slots, list, t);
    WholeIff(list, t);
    ok := Check(list);
    if !ok {
      return Refused;
    }
    Finished(items, t, list);
    return Set(list);
  }

  method Check(list: seq<Mig>) returns (ok: bool)
    ensures ok <==> Whole(list)
  {
    for i := 0 to |list|
      invariant forall j :: 0 <= j < i ==> list[j].version == j + 1 && list[j].up.Some? && list[j].down.Some?
    {
      if list[i].version != i + 1 {
        return false;
      }
      if list[i].up.None? || list[i].down.None? {
        return false;
      }
    }
    return true;
  }

  lemma WholeIff(list: seq<Mig>, t: Table)
    requires Slots(list, t) && Rising(list) && forall v :: v in t ==> v > 0
    ensures Whole(list) <==> Complete(t)
  {
    InOrderIff(list, t);
    if Whole(list) {
      forall v | v in t ensures t[v].up.Some? && t[v].down.Some? {
        var i :| 0 <= i < |list| && list[i] == t[v];
      }
    }
    if Complete(t) {
      forall i | 0 <= i < |list| ensures list[i].up.Some? && list[i].down.Some? {
        assert t[list[i].version] == list[i];
      }
    }
  }

  lemma At(t: Table, list: seq<Mig>, v: nat)
    requires Slots(list, t) && Whole(list)
    ensures v in t <==> 0 < v <= |list|
    ensures v in t ==> list[v - 1] == t[v]
  {
    if v in t {
      var i :| 0 <= i < |list| && list[i] == t[v];
    }
    if 0 < v <= |list| {
      assert list[v - 1].version in t;
    }
  }

  lemma Finished(items: seq<File>, t: Table, list: seq<Mig>)
    requires Tabled(items, t) && Slots(list, t) && Whole(list)
    ensures Lists(list, items)
  {
    TabledVersions(items, t);
    forall v: nat | 0 < v <= |list| ensures HasVersion(items, v) {
      At(t, list, v);
    }
    forall f | f in items
      ensures 0 < V(f) <= |list| && list[V(f) - 1].name == N(f) && HalfOf(list[V(f) - 1], U(f)) == Some(f.sql)
    {
      assert Stored(t, f);
      At(t, list, V(f));
    }
  }
}
