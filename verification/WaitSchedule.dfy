/** Providers, their batches of shops, and the schedules the poller loads and polls. */
module WaitSchedule {
  import opened Wrappers
  import opened Sequences

  datatype Region = Us | Ca | Gb | Sg | Au | My | Kr | Cn
  datatype Provider = International(region: Region) | GoChina

  // In the order of the derived Ord, which is the order of the map of groups.
  const PROVIDERS: seq<Provider> := [
    International(Us), International(Ca), International(Gb), International(Sg),
    International(Au), International(My), International(Kr), International(Cn), GoChina]

  function BatchSize(p: Provider): nat {
    if p.GoChina? then 100 else 10
  }

  function RegionCode(p: Provider): string {
    match p
    case GoChina => "CN"
    case International(Us) => "US"
    case International(Ca) => "CA"
    case International(Gb) => "GB"
    case International(Sg) => "SG"
    case International(Au) => "AU"
    case International(My) => "MY"
    case International(Kr) => "KR"
    case International(Cn) => "CN"
  }

  function ProviderName(p: Provider): string {
    if p.GoChina? then "go-china" else "international"
  }

  function CooldownKey(p: Provider): string {
    ProviderName(p) + ":" + RegionCode(p)
  }

  // The keys as the table of cooldowns holds them.
  lemma KeyIs(p: Provider)
    ensures CooldownKey(p) ==
            match p
            case GoChina => "go-china:CN"
            case International(Us) => "international:US"
            case International(Ca) => "international:CA"
            case International(Gb) => "international:GB"
            case International(Sg) => "international:SG"
            case International(Au) => "international:AU"
            case International(My) => "international:MY"
            case International(Kr) => "international:KR"
            case International(Cn) => "international:CN"
  {
    assert "go-china" + ":" == "go-china:" && "international" + ":" == "international:";
  }

  // Two providers share a region code, but no two share a key.
  lemma CooldownKeyInjective(p: Provider, q: Provider)
    requires CooldownKey(p) == CooldownKey(q)
    ensures p == q
  {
    var k, l := CooldownKey(p), CooldownKey(q);
    assert k[0] == (if p.GoChina? then 'g' else 'i') && l[0] == (if q.GoChina? then 'g' else 'i');
    if p.International? {
      assert k[|k| - 2..] == RegionCode(p) && l[|l| - 2..] == RegionCode(q);
      assert RegionCode(p)[0] == RegionCode(q)[0] && RegionCode(p)[1] == RegionCode(q)[1];
    }
  }

  datatype Shop = Shop(id: int, country: string, city: Option<string>)

  function HongKongOrMacao(city: Option<string>): bool {
    city.Some? && ("15681" <= city.value || "15682" <= city.value)
  }

  function WaitProviderFor(shop: Shop): Option<Provider> {
    if shop.country == "840" then Some(International(Us))
    else if shop.country == "124" then Some(International(Ca))
    else if shop.country == "826" then Some(International(Gb))
    else if shop.country == "702" then Some(International(Sg))
    else if shop.country == "036" || shop.country == "36" then Some(International(Au))
    else if shop.country == "458" then Some(International(My))
    else if shop.country == "410" then Some(International(Kr))
    else if shop.country == "156" then
      if HongKongOrMacao(shop.city) then Some(International(Cn)) else Some(GoChina)
    else None
  }

  // A city of Hong Kong or Macao, by its first five characters.
  predicate InHongKongOrMacao(city: Option<string>) {
    city.Some? && |city.value| >= 5 && (city.value[..5] == "15681" || city.value[..5] == "15682")
  }

  // Whose shops a provider serves, by the codes of country and city.
  predicate Serves(p: Provider, shop: Shop) {
    match p
    case GoChina => shop.country == "156" && !InHongKongOrMacao(shop.city)
    case International(region) =>
      match region
      case Us => shop.country == "840"
      case Ca => shop.country == "124"
      case Gb => shop.country == "826"
      case Sg => shop.country == "702"
      case Au => shop.country in {"036", "36"}
      case My => shop.country == "458"
      case Kr => shop.country == "410"
      case Cn => shop.country == "156" && InHongKongOrMacao(shop.city)
  }

  // A shop has the provider that serves it, and none if none does.
  lemma ProviderIff(shop: Shop, p: Provider)
    ensures WaitProviderFor(shop) == Some(p) <==> Serves(p, shop)
  {
    var city := shop.city;
    assert city.Some? && InHongKongOrMacao(city) ==> HongKongOrMacao(city);
  }

  // ---- Grouping and batching

  function IdsOf(shops: seq<Shop>, p: Provider): seq<int> {
    if shops == [] then [] else
      var n := |shops| - 1;
      IdsOf(shops[..n], p) + if WaitProviderFor(shops[n]) == Some(p) then [shops[n].id] else []
  }

  method GroupShopIdsByProvider(shops: seq<Shop>) returns (groups: map<Provider, seq<int>>)
    ensures forall p :: p in groups <==> IdsOf(shops, p) != []
    ensures forall p :: p in groups ==> groups[p] == IdsOf(shops, p)
  {
    groups := map[];
    for i := 0 to |shops|
      invariant forall p :: p in groups <==> IdsOf(shops[..i], p) != []
      invariant forall p :: p in groups ==> groups[p] == IdsOf(shops[..i], p)
    {
      assert shops[..i + 1][..i] == shops[..i];
      var provider := WaitProviderFor(shops[i]);
      if provider.Some? {
        var p := provider.value;
        groups := groups[p := (if p in groups then groups[p] else []) + [shops[i].id]];
      }
    }
    assert shops[..|shops|] == shops;
  }

  // slice::chunks: full chunks, then what is left.
  function Chunks(ids: seq<int>, size: nat): seq<seq<int>>
    requires size > 0
    decreases |ids|
  {
    if ids == [] then []
    else if |ids| <= size then [ids]
    else [ids[..size]] + Chunks(ids[size..], size)
  }

  function Flatten(batches: seq<seq<int>>): seq<int> {
    if batches == [] then [] else batches[0] + Flatten(batches[1..])
  }

  lemma {:induction false} ChunksAre(ids: seq<int>, size: nat)
    requires size > 0
    ensures Flatten(Chunks(ids, size)) == ids
    ensures ids != [] ==> Chunks(ids, size) != []
    ensures forall b :: b in Chunks(ids, size) ==> 1 <= |b| <= size
    ensures forall i :: 0 <= i < |Chunks(ids, size)| - 1 ==> |Chunks(ids, size)[i]| == size
    decreases |ids|
  {
    if |ids| > size {
      ChunksAre(ids[size..], size);
      assert ids == ids[..size] + ids[size..];
    } else if ids != [] {
      assert Flatten([ids]) == ids + Flatten([]);
    }
  }

  // All ids in the batches of the given providers.
  function Batched(shops: seq<Shop>, providers: seq<Provider>): seq<int> {
    if providers == [] then [] else
      Flatten(Chunks(IdsOf(shops, providers[0]), BatchSize(providers[0]))) + Batched(shops, providers[1..])
  }

  // The tracked shops that have a provider.
  function Served(shops: seq<Shop>): seq<int> {
    if shops == [] then [] else
      var n := |shops| - 1;
      Served(shops[..n]) + if WaitProviderFor(shops[n]).Some? then [shops[n].id] else []
  }

  lemma {:induction false} BatchedNone(providers: seq<Provider>)
    ensures Batched([], providers) == []
  {
    if providers != [] {
      BatchedNone(providers[1..]);
    }
  }

  lemma BatchedFirst(shops: seq<Shop>, providers: seq<Provider>)
    requires providers != []
    ensures Batched(shops, providers) == IdsOf(shops, providers[0]) + Batched(shops, providers[1..])
  {
    ChunksAre(IdsOf(shops, providers[0]), BatchSize(providers[0]));
  }

  function OwnId(id: int, own: Option<Provider>, providers: seq<Provider>): multiset<int> {
    if own.Some? && own.value in providers then multiset{id} else multiset{}
  }

  // The id of the last shop, if its provider is among the given ones.
  function Own(shops: seq<Shop>, providers: seq<Provider>): multiset<int>
    requires shops != []
  {
    OwnId(shops[|shops| - 1].id, WaitProviderFor(shops[|shops| - 1]), providers)
  }

  lemma OwnIdFirst(id: int, own: Option<Provider>, providers: seq<Provider>)
    requires providers != [] && Distinct(providers)
    ensures OwnId(id, own, providers) == OwnId(id, own, [providers[0]]) + OwnId(id, own, providers[1..])
  {
    assert providers == [providers[0]] + providers[1..];
    assert providers[0] !in providers[1..];
  }

  lemma IdsOfLast(shops: seq<Shop>, p: Provider)
    requires shops != []
    ensures multiset(IdsOf(shops, p)) == multiset(IdsOf(shops[..|shops| - 1], p)) + Own(shops, [p])
  {
  }

  // The last shop adds its id once, under its own provider.
  lemma {:induction false} BatchedLast(shops: seq<Shop>, providers: seq<Provider>)
    requires shops != [] && Distinct(providers)
    ensures multiset(Batched(shops, providers))
            == multiset(Batched(shops[..|shops| - 1], providers)) + Own(shops, providers)
  {
    if providers != [] {
      var before, last := shops[..|shops| - 1], shops[|shops| - 1];
      BatchedFirst(shops, providers);
      BatchedFirst(before, providers);
      BatchedLast(shops, providers[1..]);
      IdsOfLast(shops, providers[0]);
      OwnIdFirst(last.id, WaitProviderFor(last), providers);
    }
  }

  lemma {:induction false} PartitionOver(shops: seq<Shop>, providers: seq<Provider>)
    requires Distinct(providers) && forall p: Provider :: p in providers
    ensures multiset(Batched(shops, providers)) == multiset(Served(shops))
  {
    if shops == [] {
      BatchedNone(providers);
    } else {
      PartitionOver(shops[..|shops| - 1], providers);
      BatchedLast(shops, providers);
    }
  }

  // Every tracked shop with a provider is in exactly one batch of exactly one provider.
  lemma BatchesPartition(shops: seq<Shop>)
    ensures multiset(Batched(shops, PROVIDERS)) == multiset(Served(shops))
  {
    AllProviders();
    PartitionOver(shops, PROVIDERS);
  }

  lemma AllProviders()
    ensures Distinct(PROVIDERS)
    ensures forall p: Provider :: p in PROVIDERS
  {
    forall p: Provider ensures p in PROVIDERS {
      match p
      case International(Us) => assert PROVIDERS[0] == p;
      case International(Ca) => assert PROVIDERS[1] == p;
      case International(Gb) => assert PROVIDERS[2] == p;
      case International(Sg) => assert PROVIDERS[3] == p;
      case International(Au) => assert PROVIDERS[4] == p;
      case International(My) => assert PROVIDERS[5] == p;
      case International(Kr) => assert PROVIDERS[6] == p;
      case International(Cn) => assert PROVIDERS[7] == p;
      case GoChina => assert PROVIDERS[8] == p;
    }
  }

  // ---- Schedules

  datatype Schedule = Schedule(provider: Provider, batches: seq<seq<int>>, nextBatch: nat, nextDue: real,
      spacing: real) {
    ghost predicate Valid() {
      nextBatch < |batches| && spacing > 0.0
    }
  }

  function PerMinute(maxPerMinute: nat): nat {
    if maxPerMinute > 1 then maxPerMinute else 1
  }

  function Spacing(maxPerMinute: nat): (spacing: real)
    ensures spacing > 0.0
    ensures PerMinute(maxPerMinute) as real * spacing == 60.0
  {
    60.0 / PerMinute(maxPerMinute) as real
  }

  function Stagger(spacing: real, index: nat, count: nat): real
    requires count > 0
  {
    spacing * index as real / count as real
  }

  class WaitSchedule {
    const provider: Provider
    const batches: seq<seq<int>>
    const spacing: real
    var nextBatch: nat
    var nextDue: real

    constructor (provider: Provider, batches: seq<seq<int>>, nextDue: real, spacing: real)
      ensures View() == Schedule(provider, batches, 0, nextDue, spacing)
    {
      this.provider, this.batches, this.spacing := provider, batches, spacing;
      this.nextBatch, this.nextDue := 0, nextDue;
    }

    ghost function View(): Schedule
      reads this
    {
      Schedule(provider, batches, nextBatch, nextDue, spacing)
    }
  }

  // The schedule of the index-th of count groups, as loaded.
  function Loaded(shops: seq<Shop>, p: Provider, maxPerMinute: nat, now: real, index: nat, count: nat): Schedule
    requires count > 0
  {
    var spacing := Spacing(maxPerMinute);
    Schedule(p, Chunks(IdsOf(shops, p), BatchSize(p)), 0, now + Stagger(spacing, index, count), spacing)
  }

  // A loaded schedule has a batch to send and a positive pace.
  lemma LoadedIsValid(shops: seq<Shop>, p: Provider, maxPerMinute: nat, now: real, index: nat, count: nat)
    requires count > 0 && IdsOf(shops, p) != []
    ensures Loaded(shops, p, maxPerMinute, now, index, count).Valid()
  {
    ChunksAre(IdsOf(shops, p), BatchSize(p));
  }

  ghost function GroupsPresent(shops: seq<Shop>): seq<Provider> {
    Select(PROVIDERS, p => IdsOf(shops, p) != [])
  }

  // The schedules a load makes from the tracked shops.
  ghost function LoadedAll(shops: seq<Shop>, maxPerMinute: nat, now: real): seq<Schedule> {
    var present := GroupsPresent(shops);
    seq(|present|, i requires 0 <= i < |present| => Loaded(shops, present[i], maxPerMinute, now, i, |present|))
  }

  lemma LoadedAllValid(shops: seq<Shop>, maxPerMinute: nat, now: real)
    ensures forall s :: s in LoadedAll(shops, maxPerMinute, now) ==> s.Valid()
  {
    var present := GroupsPresent(shops);
    SelectMembers(PROVIDERS, p => IdsOf(shops, p) != []);
    forall i | 0 <= i < |present| ensures Loaded(shops, present[i], maxPerMinute, now, i, |present|).Valid() {
      assert present[i] in present;
      LoadedIsValid(shops, present[i], maxPerMinute, now, i, |present|);
    }
  }

  // The shops in the batches of all schedules.
  function ScheduledShops(schedules: seq<Schedule>): seq<int> {
    if schedules == [] then [] else Flatten(schedules[0].batches) + ScheduledShops(schedules[1..])
  }

  lemma {:induction false} ScheduledAreBatched(shops: seq<Shop>, schedules: seq<Schedule>, providers: seq<Provider>)
    requires |schedules| == |providers|
    requires forall i :: 0 <= i < |schedules| ==>
               schedules[i].batches == Chunks(IdsOf(shops, providers[i]), BatchSize(providers[i]))
    ensures ScheduledShops(schedules) == Batched(shops, providers)
  {
    if schedules != [] {
      ScheduledAreBatched(shops, schedules[1..], providers[1..]);
    }
  }

  // A provider without shops has no batches to lose.
  lemma {:induction false} BatchedPresent(shops: seq<Shop>, providers: seq<Provider>)
    ensures Batched(shops, Select(providers, p => IdsOf(shops, p) != [])) == Batched(shops, providers)
  {
    if providers != [] {
      var rest := Select(providers[1..], p => IdsOf(shops, p) != []);
      BatchedPresent(shops, providers[1..]);
      assert ([providers[0]] + rest)[1..] == rest;
    }
  }

  // The schedules of one load hold every tracked shop with a provider exactly once, and no other shop.
  lemma LoadedPartition(shops: seq<Shop>, maxPerMinute: nat, now: real)
    ensures multiset(ScheduledShops(LoadedAll(shops, maxPerMinute, now))) == multiset(Served(shops))
  {
    ScheduledAreBatched(shops, LoadedAll(shops, maxPerMinute, now), GroupsPresent(shops));
    BatchedPresent(shops, PROVIDERS);
    BatchesPartition(shops);
  }

  // The place of a provider in the derived order.
  function Rank(p: Provider): nat {
    match p
    case International(Us) => 0
    case International(Ca) => 1
    case International(Gb) => 2
    case International(Sg) => 3
    case International(Au) => 4
    case International(My) => 5
    case International(Kr) => 6
    case International(Cn) => 7
    case GoChina => 8
  }

  lemma RankInOrder(p: Provider)
    ensures Rank(p) == IndexOf(PROVIDERS, p)
  {
    AllProviders();
    match p
    case International(Us) => IndexIs(PROVIDERS, 0);
    case International(Ca) => IndexIs(PROVIDERS, 1);
    case International(Gb) => IndexIs(PROVIDERS, 2);
    case International(Sg) => IndexIs(PROVIDERS, 3);
    case International(Au) => IndexIs(PROVIDERS, 4);
    case International(My) => IndexIs(PROVIDERS, 5);
    case International(Kr) => IndexIs(PROVIDERS, 6);
    case International(Cn) => IndexIs(PROVIDERS, 7);
    case GoChina => IndexIs(PROVIDERS, 8);
  }

  // Ten shops at most in a batch, a hundred for the Chinese provider; all batches but the last are full.
  ghost predicate HoldsShops(batches: seq<seq<int>>, p: Provider, ids: seq<int>) {
    var size := if p == GoChina then 100 else 10;
    && Flatten(batches) == ids && batches != []
    && (forall b :: b in batches ==> 1 <= |b| <= size)
    && (forall i :: 0 <= i < |batches| - 1 ==> |batches[i]| == size)
  }

  // The due times of a load lie evenly in one spacing, a minute's share of the configured number.
  ghost predicate Evenly(s: Schedule, maxPerMinute: nat, now: real, index: nat, count: nat) {
    && s.spacing * (if maxPerMinute == 0 then 1 else maxPerMinute) as real == 60.0
    && (s.nextDue - now) * count as real == s.spacing * index as real
  }

  ghost predicate HasSchedule(schedules: seq<Schedule>, p: Provider) {
    exists i :: 0 <= i < |schedules| && schedules[i].provider == p
  }

  ghost predicate HasShop(shops: seq<Shop>, p: Provider) {
    exists shop :: shop in shops && Serves(p, shop)
  }

  // What a load makes: one schedule for each provider that serves a shop, in their order, from its first
  // batch on.
  ghost predicate IsLoad(schedules: seq<Schedule>, shops: seq<Shop>, maxPerMinute: nat, now: real) {
    && (forall p :: HasSchedule(schedules, p) <==> HasShop(shops, p))
    && (forall i, j :: 0 <= i < j < |schedules| ==> Rank(schedules[i].provider) < Rank(schedules[j].provider))
    && (forall i :: 0 <= i < |schedules| ==>
          && schedules[i].nextBatch == 0
          && HoldsShops(schedules[i].batches, schedules[i].provider, IdsOf(shops, schedules[i].provider))
          && Evenly(schedules[i], maxPerMinute, now, i, |schedules|))
  }

  lemma {:induction false} IdsOfServed(shops: seq<Shop>, p: Provider)
    ensures IdsOf(shops, p) != [] <==> HasShop(shops, p)
  {
    if shops != [] {
      var n := |shops| - 1;
      IdsOfServed(shops[..n], p);
      ProviderIff(shops[n], p);
      assert shops == shops[..n] + [shops[n]] && shops[n] in shops;
    }
  }

  lemma StaggerTimes(spacing: real, index: nat, count: nat)
    requires count > 0
    ensures Stagger(spacing, index, count) * count as real == spacing * index as real
  {
    var product, n := spacing * index as real, count as real;
    assert product / n * n == product;
  }

  lemma LoadedIs(shops: seq<Shop>, p: Provider, maxPerMinute: nat, now: real, index: nat, count: nat)
    requires count > 0 && IdsOf(shops, p) != []
    ensures HoldsShops(Loaded(shops, p, maxPerMinute, now, index, count).batches, p, IdsOf(shops, p))
    ensures Evenly(Loaded(shops, p, maxPerMinute, now, index, count), maxPerMinute, now, index, count)
  {
    ChunksAre(IdsOf(shops, p), BatchSize(p));
    LoadedEvenly(shops, p, maxPerMinute, now, index, count);
  }

  lemma LoadedEvenly(shops: seq<Shop>, p: Provider, maxPerMinute: nat, now: real, index: nat, count: nat)
    requires count > 0
    ensures Evenly(Loaded(shops, p, maxPerMinute, now, index, count), maxPerMinute, now, index, count)
  {
    var s := Loaded(shops, p, maxPerMinute, now, index, count);
    StaggerTimes(s.spacing, index, count);
    assert s.nextDue - now == Stagger(s.spacing, index, count);
    SpacingTimes(maxPerMinute);
  }

  lemma SpacingTimes(maxPerMinute: nat)
    ensures Spacing(maxPerMinute) * (if maxPerMinute == 0 then 1 else maxPerMinute) as real == 60.0
  {
    var n := (if maxPerMinute == 0 then 1 else maxPerMinute) as real;
    assert 60.0 / n * n == 60.0;
  }

  lemma PresentIs(shops: seq<Shop>, p: Provider)
    ensures p in GroupsPresent(shops) <==> HasShop(shops, p)
    ensures p in GroupsPresent(shops) <==> IdsOf(shops, p) != []
  {
    AllProviders();
    SelectMembers(PROVIDERS, p => IdsOf(shops, p) != []);
    IdsOfServed(shops, p);
  }

  lemma PresentInOrder(shops: seq<Shop>, i: nat, j: nat)
    requires i < j < |GroupsPresent(shops)|
    ensures Rank(GroupsPresent(shops)[i]) < Rank(GroupsPresent(shops)[j])
  {
    AllProviders();
    SelectOrder(PROVIDERS, p => IdsOf(shops, p) != [], i, j);
    RankInOrder(GroupsPresent(shops)[i]);
    RankInOrder(GroupsPresent(shops)[j]);
  }

  lemma LoadedAllIs(shops: seq<Shop>, maxPerMinute: nat, now: real)
    ensures IsLoad(LoadedAll(shops, maxPerMinute, now), shops, maxPerMinute, now)
  {
    var present, all := GroupsPresent(shops), LoadedAll(shops, maxPerMinute, now);
    forall i | 0 <= i < |all|
      ensures all[i].nextBatch == 0 && all[i].provider == present[i]
      ensures HoldsShops(all[i].batches, all[i].provider, IdsOf(shops, all[i].provider))
      ensures Evenly(all[i], maxPerMinute, now, i, |all|)
    {
      assert present[i] in present;
      PresentIs(shops, present[i]);
      LoadedIs(shops, present[i], maxPerMinute, now, i, |present|);
    }
    forall p ensures HasSchedule(all, p) <==> HasShop(shops, p) {
      PresentIs(shops, p);
    }
    forall i, j | 0 <= i < j < |all| ensures Rank(all[i].provider) < Rank(all[j].provider) {
      PresentInOrder(shops, i, j);
    }
  }

  ghost predicate LoadedFrom(schedules: seq<WaitSchedule>, shops: seq<Shop>, present: seq<Provider>,
      maxPerMinute: nat, now: real)
    reads schedules
  {
    && |schedules| <= |present|
    && (forall i :: 0 <= i < |schedules| ==>
          schedules[i].View() == Loaded(shops, present[i], maxPerMinute, now, i, |present|))
    && Distinct(schedules)
  }

  method LoadWaitSchedules(shops: seq<Shop>, maxPerMinute: nat, now: real) returns (schedules: seq<WaitSchedule>)
    ensures |schedules| == |GroupsPresent(shops)| && fresh(schedules)
    ensures LoadedFrom(schedules, shops, GroupsPresent(shops), maxPerMinute, now)
    ensures IsLoad(LoadedAll(shops, maxPerMinute, now), shops, maxPerMinute, now)
  {
    LoadedAllIs(shops, maxPerMinute, now);
    var groups := GroupShopIdsByProvider(shops);
    var present := Select(PROVIDERS, p => p in groups);
    SelectSame(PROVIDERS, p => p in groups, p => IdsOf(shops, p) != []);
    SelectMembers(PROVIDERS, p => p in groups);
    schedules := MakeSchedules(shops, groups, present, maxPerMinute, now);
  }

  method MakeSchedules(ghost shops: seq<Shop>, groups: map<Provider, seq<int>>, present: seq<Provider>,
                       maxPerMinute: nat, now: real)
    returns (schedules: seq<WaitSchedule>)
    requires forall p :: p in present ==> p in groups && groups[p] == IdsOf(shops, p) != []
    ensures |schedules| == |present| && fresh(schedules)
    ensures LoadedFrom(schedules, shops, present, maxPerMinute, now)
  {
    var spacing := Spacing(maxPerMinute);
    schedules := [];
    for index := 0 to |present|
      invariant |schedules| == index && fresh(schedules)
      invariant LoadedFrom(schedules, shops, present, maxPerMinute, now)
    {
      var p := present[index];
      assert p in present;
      var nextDue := now + Stagger(spacing, index, |present|);
      label Before:
      var schedule := new WaitSchedule(p, Chunks(groups[p], BatchSize(p)), nextDue, spacing);
      assert schedule.View() == Loaded(shops, p, maxPerMinute, now, index, |present|);
      assert forall s :: s in schedules ==> s.View() == old@Before(s.View()) && s != schedule;
      ghost var more := schedules + [schedule];
      forall i | 0 <= i < |more| ensures more[i].View() == Loaded(shops, present[i], maxPerMinute, now, i, |present|) {
        if i < index {
          assert more[i] == schedules[i] && schedules[i] in schedules;
        }
      }
      schedules := schedules + [schedule];
    }
  }

  lemma {:induction false} SelectSame<T>(s: seq<T>, p: T -> bool, q: T -> bool)
    requires forall x :: x in s ==> p(x) == q(x)
    ensures Select(s, p) == Select(s, q)
  {
    if s != [] {
      assert s[0] in s;
      SelectSame(s[1..], p, q);
    }
  }
}
