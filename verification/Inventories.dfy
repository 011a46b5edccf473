/** Normalising an inventory and fingerprinting it (internal/report/inventory.go). */
module Inventories {
  import opened Text
  import opened Reports
  import opened Sorting

  function KeyOf<T>(x: Item<T>): string { x.key }

  function TextOf(a: Address): string { a.text }

  function Itself<T>(x: T): T { x }

  function OnAttrs<T, U>(f: T -> U, items: seq<Item<T>>): (r: seq<Item<U>>)
    ensures |r| == |items|
    ensures forall i :: 0 <= i < |items| ==> r[i] == Item(items[i].key, f(items[i].attrs))
  {
    seq(|items|, i requires 0 <= i < |items| => Item(items[i].key, f(items[i].attrs)))
  }

  /** The columns the last item with each key carries. */
  function LastWins<T>(items: seq<Item<T>>): (m: map<string, T>)
    ensures m.Keys == KeysOf(items)
  {
    if items == [] then map[]
    else
      var n := |items| - 1;
      LastWins(items[..n])[items[n].key := items[n].attrs]
  }

  // ---- the operation ----

  function NormalFilesystem(f: Filesystem): Filesystem {
    f.(mountOptions := SortBy(Itself, f.mountOptions))
  }

  function NormalInterface(n: NetworkInterface): NetworkInterface {
    n.(addresses := SortBy(TextOf, n.addresses))
  }

  /** `NormalizeInventory`: every list by key, then mount options and addresses inside each item. */
  function Normalize(inv: Inventory): Inventory {
    Inventory(
      SortBy(KeyOf, inv.cpuPackages),
      SortBy(KeyOf, inv.memoryModules),
      SortBy(KeyOf, inv.blockDevices),
      OnAttrs(NormalFilesystem, SortBy(KeyOf, inv.filesystems)),
      OnAttrs(NormalInterface, SortBy(KeyOf, inv.networkInterfaces)),
      SortBy(KeyOf, inv.gpus))
  }

  /** SHA-256 over the JSON text: any function that tells inventories apart and never returns the unset value. */
  ghost predicate GoodDigest(digest: Inventory -> string) {
    && (forall a, b :: digest(a) == digest(b) ==> a == b)
    && (forall a :: digest(a) != "")
  }

  function Fingerprint(digest: Inventory -> string, inv: Inventory): string {
    digest(Normalize(inv))
  }

  // ---- what an inventory says, without any order ----

  datatype FilesystemFacts = FilesystemFacts(
    uuid: string, deviceName: string, filesystemType: string, mountPoint: string, mountOptions: multiset<string>)

  datatype InterfaceFacts = InterfaceFacts(
    name: string, macAddress: string, mtu: int, linkSpeedMbps: int, addresses: multiset<Address>)

  datatype InventoryFacts = InventoryFacts(
    cpuPackages: map<string, CpuPackage>, memoryModules: map<string, MemoryModule>,
    blockDevices: map<string, BlockDevice>, filesystems: map<string, FilesystemFacts>,
    networkInterfaces: map<string, InterfaceFacts>, gpus: map<string, Gpu>)

  function FactsOfFilesystem(f: Filesystem): FilesystemFacts {
    FilesystemFacts(f.uuid, f.deviceName, f.filesystemType, f.mountPoint, multiset(f.mountOptions))
  }

  function FactsOfInterface(n: NetworkInterface): InterfaceFacts {
    InterfaceFacts(n.name, n.macAddress, n.mtu, n.linkSpeedMbps, multiset(n.addresses))
  }

  function Facts(inv: Inventory): InventoryFacts {
    InventoryFacts(
      LastWins(inv.cpuPackages), LastWins(inv.memoryModules), LastWins(inv.blockDevices),
      LastWins(OnAttrs(FactsOfFilesystem, inv.filesystems)),
      LastWins(OnAttrs(FactsOfInterface, inv.networkInterfaces)),
      LastWins(inv.gpus))
  }

  // ---- lists with distinct keys ----

  lemma {:induction false} LastWinsAt<T>(items: seq<Item<T>>, i: int)
    requires DistinctKeys(items) && 0 <= i < |items|
    ensures items[i].key in LastWins(items) && LastWins(items)[items[i].key] == items[i].attrs
  {
    var n := |items| - 1;
    if i < n {
      assert items[..n][i] == items[i];
      assert items[i].key != items[n].key;
      LastWinsAt(items[..n], i);
    }
  }

  lemma {:induction false} MemberIffMapped<T>(items: seq<Item<T>>, x: Item<T>)
    requires DistinctKeys(items)
    ensures x in items <==> x.key in LastWins(items) && LastWins(items)[x.key] == x.attrs
  {
    if x in items {
      var i :| 0 <= i < |items| && items[i] == x;
      LastWinsAt(items, i);
    }
    if x.key in LastWins(items) {
      var i :| 0 <= i < |items| && items[i].key == x.key;
      LastWinsAt(items, i);
    }
  }

  lemma {:induction false} CountsAtMostOne<T>(items: seq<Item<T>>, x: Item<T>)
    requires DistinctKeys(items)
    ensures multiset(items)[x] == if x in items then 1 else 0
  {
    if items != [] {
      var n := |items| - 1;
      assert items == items[..n] + [items[n]];
      CountsAtMostOne(items[..n], x);
      assert items[n] !in items[..n];
    }
  }

  /** Lists with distinct keys are permutations of each other exactly when they say the same. */
  lemma PermutationIffSameMap<T>(a: seq<Item<T>>, b: seq<Item<T>>)
    requires DistinctKeys(a) && DistinctKeys(b)
    ensures multiset(a) == multiset(b) <==> LastWins(a) == LastWins(b)
  {
    if multiset(a) == multiset(b) {
      forall k | k in LastWins(a) || k in LastWins(b)
        ensures k in LastWins(a) && k in LastWins(b) && LastWins(a)[k] == LastWins(b)[k]
      {
        var x := if k in LastWins(a) then Item(k, LastWins(a)[k]) else Item(k, LastWins(b)[k]);
        MemberIffMapped(a, x);
        MemberIffMapped(b, x);
        assert x in multiset(a) <==> x in multiset(b);
        assert x in a <==> x in multiset(a);
        assert x in b <==> x in multiset(b);
      }
    }
    if LastWins(a) == LastWins(b) {
      forall x ensures multiset(a)[x] == multiset(b)[x] {
        MemberIffMapped(a, x);
        MemberIffMapped(b, x);
        CountsAtMostOne(a, x);
        CountsAtMostOne(b, x);
      }
    }
  }

  lemma DistinctKeysIdentify<T>(items: seq<Item<T>>)
    requires DistinctKeys(items)
    ensures Identifies(KeyOf, items)
  {}

  lemma DistinctKeysPermute<T>(a: seq<Item<T>>, b: seq<Item<T>>)
    requires DistinctKeys(a) && multiset(a) == multiset(b)
    ensures DistinctKeys(b)
  {
    forall i, j | 0 <= i < j < |b| ensures b[i].key != b[j].key {
      assert b == b[..j] + [b[j]] + b[j + 1..];
      CountsAtMostOne(a, b[j]);
      assert b[j] !in multiset(b[..j]);
      assert b[i] in b[..j];
      assert b[i] in multiset(a) && b[j] in multiset(a);
    }
  }

  lemma SortedListSaysTheSame<T>(items: seq<Item<T>>)
    requires DistinctKeys(items)
    ensures DistinctKeys(SortBy(KeyOf, items))
    ensures LastWins(SortBy(KeyOf, items)) == LastWins(items)
  {
    DistinctKeysPermute(items, SortBy(KeyOf, items));
    PermutationIffSameMap(items, SortBy(KeyOf, items));
  }

  lemma {:induction false} LastWinsOnAttrs<T, U>(f: T -> U, items: seq<Item<T>>)
    ensures LastWins(OnAttrs(f, items)) == map k | k in LastWins(items) :: f(LastWins(items)[k])
  {
    if items != [] {
      var n := |items| - 1;
      LastWinsOnAttrs(f, items[..n]);
      assert OnAttrs(f, items)[..n] == OnAttrs(f, items[..n]);
    }
  }

  lemma MappedAlike<T, U, V>(f: T -> U, g: T -> V, a: map<string, T>, b: map<string, T>)
    requires forall k :: k in a && k in b ==> (f(a[k]) == f(b[k]) <==> g(a[k]) == g(b[k]))
    ensures (map k | k in a :: f(a[k])) == (map k | k in b :: f(b[k]))
            <==> (map k | k in a :: g(a[k])) == (map k | k in b :: g(b[k]))
  {
    var fa, fb := map k | k in a :: f(a[k]), map k | k in b :: f(b[k]);
    var ga, gb := map k | k in a :: g(a[k]), map k | k in b :: g(b[k]);
    assert fa.Keys == ga.Keys == a.Keys && fb.Keys == gb.Keys == b.Keys;
    if fa == fb {
      forall k | k in ga ensures k in gb && ga[k] == gb[k] {
        assert k in fb && fa[k] == fb[k];
      }
      assert ga == gb;
    }
    if ga == gb {
      forall k | k in fa ensures k in fb && fa[k] == fb[k] {
        assert k in gb && ga[k] == gb[k];
      }
      assert fa == fb;
    }
  }

  /** Sorting a list whose columns `f` normalises is canonical for what `g` says of them. */
  lemma ListCanonical<T, U, V>(f: T -> U, g: T -> V, a: seq<Item<T>>, b: seq<Item<T>>)
    requires DistinctKeys(a) && DistinctKeys(b)
    requires forall x, y :: x in a && y in b ==> (f(x.attrs) == f(y.attrs) <==> g(x.attrs) == g(y.attrs))
    ensures OnAttrs(f, SortBy(KeyOf, a)) == OnAttrs(f, SortBy(KeyOf, b))
            <==> LastWins(OnAttrs(g, a)) == LastWins(OnAttrs(g, b))
  {
    var la, lb := LastWins(a), LastWins(b);
    forall k | k in la && k in lb ensures f(la[k]) == f(lb[k]) <==> g(la[k]) == g(lb[k]) {
      MemberIffMapped(a, Item(k, la[k]));
      MemberIffMapped(b, Item(k, lb[k]));
      assert Item(k, la[k]) in a && Item(k, lb[k]) in b;
    }
    MappedAlike(f, g, la, lb);
    SortedMapped(f, a);
    SortedMapped(f, b);
    LastWinsOnAttrs(g, a);
    LastWinsOnAttrs(g, b);
    if LastWins(OnAttrs(g, a)) == LastWins(OnAttrs(g, b)) {
      MappedSortedIsUnique(f, a, b);
    }
  }

  lemma SortedMapped<T, U>(f: T -> U, a: seq<Item<T>>)
    requires DistinctKeys(a)
    ensures LastWins(OnAttrs(f, SortBy(KeyOf, a))) == map k | k in LastWins(a) :: f(LastWins(a)[k])
  {
    SortedListSaysTheSame(a);
    LastWinsOnAttrs(f, SortBy(KeyOf, a));
  }

  lemma MappedSortedIsUnique<T, U>(f: T -> U, a: seq<Item<T>>, b: seq<Item<T>>)
    requires DistinctKeys(a) && DistinctKeys(b)
    requires LastWins(OnAttrs(f, SortBy(KeyOf, a))) == LastWins(OnAttrs(f, SortBy(KeyOf, b)))
    ensures OnAttrs(f, SortBy(KeyOf, a)) == OnAttrs(f, SortBy(KeyOf, b))
  {
    var ma, mb := OnAttrs(f, SortBy(KeyOf, a)), OnAttrs(f, SortBy(KeyOf, b));
    SortedListSaysTheSame(a);
    SortedListSaysTheSame(b);
    SortBySorted(KeyOf, a);
    SortBySorted(KeyOf, b);
    PermutationIffSameMap(ma, mb);
    DistinctKeysIdentify(ma);
    SortedIsUnique(KeyOf, ma, mb);
  }

  lemma PlainListCanonical<T>(a: seq<Item<T>>, b: seq<Item<T>>)
    requires DistinctKeys(a) && DistinctKeys(b)
    ensures SortBy(KeyOf, a) == SortBy(KeyOf, b) <==> LastWins(a) == LastWins(b)
  {
    if LastWins(a) == LastWins(b) {
      PermutationIffSameMap(a, b);
      DistinctKeysIdentify(a);
      SortByCanonical(KeyOf, a, b);
    }
    SortedListSaysTheSame(a);
    SortedListSaysTheSame(b);
  }

  lemma FilesystemCanonical(x: Filesystem, y: Filesystem)
    ensures NormalFilesystem(x) == NormalFilesystem(y) <==> FactsOfFilesystem(x) == FactsOfFilesystem(y)
  {
    if multiset(x.mountOptions) == multiset(y.mountOptions) {
      SortByCanonical(Itself, x.mountOptions, y.mountOptions);
    }
  }

  lemma InterfaceCanonical(x: NetworkInterface, y: NetworkInterface)
    requires ValidInterface(x)
    ensures NormalInterface(x) == NormalInterface(y) <==> FactsOfInterface(x) == FactsOfInterface(y)
  {
    if multiset(x.addresses) == multiset(y.addresses) {
      SortByCanonical(TextOf, x.addresses, y.addresses);
    }
  }

  lemma FilesystemsCanonical(a: seq<Item<Filesystem>>, b: seq<Item<Filesystem>>)
    requires DistinctKeys(a) && DistinctKeys(b)
    ensures OnAttrs(NormalFilesystem, SortBy(KeyOf, a)) == OnAttrs(NormalFilesystem, SortBy(KeyOf, b))
            <==> LastWins(OnAttrs(FactsOfFilesystem, a)) == LastWins(OnAttrs(FactsOfFilesystem, b))
  {
    forall x, y: Item<Filesystem> | x in a && y in b
      ensures NormalFilesystem(x.attrs) == NormalFilesystem(y.attrs) <==> FactsOfFilesystem(x.attrs) == FactsOfFilesystem(y.attrs)
    {
      FilesystemCanonical(x.attrs, y.attrs);
    }
    ListCanonical(NormalFilesystem, FactsOfFilesystem, a, b);
  }

  lemma InterfacesCanonical(a: seq<Item<NetworkInterface>>, b: seq<Item<NetworkInterface>>)
    requires DistinctKeys(a) && DistinctKeys(b)
    requires forall x :: x in a ==> ValidInterface(x.attrs)
    ensures OnAttrs(NormalInterface, SortBy(KeyOf, a)) == OnAttrs(NormalInterface, SortBy(KeyOf, b))
            <==> LastWins(OnAttrs(FactsOfInterface, a)) == LastWins(OnAttrs(FactsOfInterface, b))
  {
    forall x, y: Item<NetworkInterface> | x in a && y in b
      ensures NormalInterface(x.attrs) == NormalInterface(y.attrs) <==> FactsOfInterface(x.attrs) == FactsOfInterface(y.attrs)
    {
      InterfaceCanonical(x.attrs, y.attrs);
    }
    ListCanonical(NormalInterface, FactsOfInterface, a, b);
  }

  lemma ValidKeysDistinct(inv: Inventory)
    requires ValidInventory(inv)
    ensures DistinctKeys(inv.cpuPackages) && DistinctKeys(inv.memoryModules) && DistinctKeys(inv.blockDevices)
    ensures DistinctKeys(inv.filesystems) && DistinctKeys(inv.networkInterfaces) && DistinctKeys(inv.gpus)
  {
    UsableKeysAreDistinct(inv.cpuPackages);
    UsableKeysAreDistinct(inv.memoryModules);
    UsableKeysAreDistinct(inv.blockDevices);
    UsableKeysAreDistinct(inv.filesystems);
    UsableKeysAreDistinct(inv.networkInterfaces);
    UsableKeysAreDistinct(inv.gpus);
  }

  /** Every list is in order of its keys; so are mount options, and addresses by their text. */
  ghost predicate InOrder(inv: Inventory) {
    && SortedBy(KeyOf, inv.cpuPackages) && SortedBy(KeyOf, inv.memoryModules) && SortedBy(KeyOf, inv.blockDevices)
    && SortedBy(KeyOf, inv.filesystems) && SortedBy(KeyOf, inv.networkInterfaces) && SortedBy(KeyOf, inv.gpus)
    && (forall x :: x in inv.filesystems ==> SortedBy(Itself, x.attrs.mountOptions))
    && (forall x :: x in inv.networkInterfaces ==> SortedBy(TextOf, x.attrs.addresses))
  }

  lemma MappedInOrder<T, U>(f: T -> U, items: seq<Item<T>>)
    requires SortedBy(KeyOf, items)
    ensures SortedBy(KeyOf, OnAttrs(f, items))
  {}

  lemma MappedFacts<T, V>(f: T -> T, g: T -> V, items: seq<Item<T>>)
    requires DistinctKeys(items) && forall x :: x in items ==> g(f(x.attrs)) == g(x.attrs)
    ensures LastWins(OnAttrs(g, OnAttrs(f, SortBy(KeyOf, items)))) == LastWins(OnAttrs(g, items))
  {
    hide SortBy, LastWins, DistinctKeys;
    var sorted := SortBy(KeyOf, items);
    SortedListSaysTheSame(items);
    LastWinsOnAttrs(g, items);
    LastWinsOnAttrs(g, sorted);
    MemberOfMultiset(items, sorted);
    forall i | 0 <= i < |sorted| ensures g(f(sorted[i].attrs)) == g(sorted[i].attrs) {
      var x := sorted[i];
      assert x in sorted;
      assert x in multiset(sorted) && x in multiset(items);
    }
    assert OnAttrs(g, OnAttrs(f, sorted)) == OnAttrs(g, sorted);
  }

  /** Normalising puts every list in order and changes nothing of what the inventory says. */
  lemma NormalizeSortsOnly(inv: Inventory)
    requires DistinctKeys(inv.cpuPackages) && DistinctKeys(inv.memoryModules) && DistinctKeys(inv.blockDevices)
    requires DistinctKeys(inv.filesystems) && DistinctKeys(inv.networkInterfaces) && DistinctKeys(inv.gpus)
    ensures InOrder(Normalize(inv)) && Facts(Normalize(inv)) == Facts(inv)
  {
    NormalizeSorts(inv);
    hide SortBy, InOrder;
    SortedListSaysTheSame(inv.cpuPackages);
    SortedListSaysTheSame(inv.memoryModules);
    SortedListSaysTheSame(inv.blockDevices);
    SortedListSaysTheSame(inv.gpus);
    MappedFacts(NormalFilesystem, FactsOfFilesystem, inv.filesystems);
    MappedFacts(NormalInterface, FactsOfInterface, inv.networkInterfaces);
  }

  lemma NormalizeSorts(inv: Inventory)
    ensures InOrder(Normalize(inv))
  {
    hide SortBy, SortedBy;
    SortBySorted(KeyOf, inv.cpuPackages);
    SortBySorted(KeyOf, inv.memoryModules);
    SortBySorted(KeyOf, inv.blockDevices);
    SortBySorted(KeyOf, inv.gpus);
    SortBySorted(KeyOf, inv.filesystems);
    MappedInOrder(NormalFilesystem, SortBy(KeyOf, inv.filesystems));
    SortBySorted(KeyOf, inv.networkInterfaces);
    MappedInOrder(NormalInterface, SortBy(KeyOf, inv.networkInterfaces));
    var filesystems, interfaces := Normalize(inv).filesystems, Normalize(inv).networkInterfaces;
    forall x | x in filesystems ensures SortedBy(Itself, x.attrs.mountOptions) {
      var i :| 0 <= i < |filesystems| && filesystems[i] == x;
      SortBySorted(Itself, SortBy(KeyOf, inv.filesystems)[i].attrs.mountOptions);
    }
    forall x | x in interfaces ensures SortedBy(TextOf, x.attrs.addresses) {
      var i :| 0 <= i < |interfaces| && interfaces[i] == x;
      SortBySorted(TextOf, SortBy(KeyOf, inv.networkInterfaces)[i].attrs.addresses);
    }
  }

  /** Normalisation is canonical: valid inventories have one normal form exactly when they state the same facts. */
  lemma NormalizeIsCanonical(a: Inventory, b: Inventory)
    requires ValidInventory(a) && ValidInventory(b)
    ensures Normalize(a) == Normalize(b) <==> Facts(a) == Facts(b)
  {
    ValidKeysDistinct(a);
    ValidKeysDistinct(b);
    PlainListCanonical(a.cpuPackages, b.cpuPackages);
    PlainListCanonical(a.memoryModules, b.memoryModules);
    PlainListCanonical(a.blockDevices, b.blockDevices);
    PlainListCanonical(a.gpus, b.gpus);
    FilesystemsCanonical(a.filesystems, b.filesystems);
    InterfacesCanonical(a.networkInterfaces, b.networkInterfaces);
  }

  /** Two valid inventories have the same fingerprint exactly when they state the same facts in some order. */
  lemma FingerprintIdentifiesFacts(digest: Inventory -> string, a: Inventory, b: Inventory)
    requires GoodDigest(digest) && ValidInventory(a) && ValidInventory(b)
    ensures Fingerprint(digest, a) == Fingerprint(digest, b) <==> Facts(a) == Facts(b)
  {
    NormalizeIsCanonical(a, b);
  }
}
