/** Slugs of shops: how one is made from a name, and how the catalog keeps them stable and unique. */
module Slugs {
  import opened Wrappers
  import opened Sequences
  import opened Decimals
  import opened Texts

  predicate IsLower(c: char) {
    'a' <= c <= 'z' || IsDigit(c)
  }

  predicate IsAlphanumeric(c: char) {
    IsLower(c) || 'A' <= c <= 'Z'
  }

  function ToLower(c: char): char {
    if 'A' <= c <= 'Z' then c + ('a' - 'A') else c
  }

  function Mapped(name: string): string {
    seq(|name|, i requires 0 <= i < |name| => if IsAlphanumeric(name[i]) then ToLower(name[i]) else '-')
  }

  function Parts(name: string): seq<string> {
    NonEmpty(Split(Mapped(name), '-'))
  }

  function Slugify(name: string, id: int): string {
    var slug := Join(Parts(name), '-');
    if slug == "" then "shop-" + Format(id) else slug
  }

  // Non-empty lower-case alphanumeric parts joined by single hyphens.
  ghost predicate IsSlug(s: string) {
    && s != "" && s[0] != '-' && s[|s| - 1] != '-'
    && (forall i :: 0 <= i < |s| ==> IsLower(s[i]) || s[i] == '-')
    && (forall i :: 0 < i < |s| && s[i] == '-' ==> s[i - 1] != '-')
  }

  predicate HasAlphanumeric(name: string) {
    exists c :: c in name && IsAlphanumeric(c)
  }

  // ---- Splitting and joining

  // Parts hold no hyphen.
  lemma {:induction false} SplitCharacters(s: string)
    ensures forall part, c :: part in Split(s, '-') && c in part ==> c in s && c != '-'
  {
    if s != "" {
      var n := |s| - 1;
      SplitCharacters(s[..n]);
      var parts := Split(s[..n], '-');
      var m := |parts| - 1;
      assert s == s[..n] + [s[n]];
      forall part, c | part in Split(s, '-') && c in part ensures c in s && c != '-' {
        if part in parts {
          assert c in s[..n];
        } else if s[n] != '-' {
          assert part == parts[m] + [s[n]] && parts[m] in parts;
        }
      }
    }
  }

  // Where hyphens are single and not in front, only the part after a final hyphen is empty.
  lemma {:induction false} SplitEmpty(s: string)
    requires (s == "" || s[0] != '-') && forall i :: 0 < i < |s| && s[i] == '-' ==> s[i - 1] != '-'
    ensures forall k :: 0 <= k < |Split(s, '-')| - 1 ==> Split(s, '-')[k] != ""
    ensures Split(s, '-')[|Split(s, '-')| - 1] == "" <==> s == "" || s[|s| - 1] == '-'
  {
    if s != "" {
      var n := |s| - 1;
      SplitEmpty(s[..n]);
    }
  }

  // Every character but a hyphen lands in some part.
  lemma {:induction false} SplitKeeps(s: string, c: char)
    requires c in s && c != '-'
    ensures exists part :: part in Split(s, '-') && c in part
  {
    var n := |s| - 1;
    var parts := Split(s[..n], '-');
    var m := |parts| - 1;
    assert s == s[..n] + [s[n]];
    if s[n] == c {
      assert c in parts[m] + [c];
      assert Split(s, '-')[m] == parts[m] + [c] && Split(s, '-')[m] in Split(s, '-');
    } else {
      SplitKeeps(s[..n], c);
      var part :| part in parts && c in part;
      var k := IndexOf(parts, part);
      if k == m && s[n] != '-' {
        assert Split(s, '-')[m] == part + [s[n]] && c in part + [s[n]] && Split(s, '-')[m] in Split(s, '-');
      } else {
        assert Split(s, '-')[k] == part && Split(s, '-')[k] in Split(s, '-');
      }
    }
  }

  lemma {:induction false} JoinIsSlug(parts: seq<string>)
    requires parts != []
    requires forall part :: part in parts ==> part != "" && forall c :: c in part ==> IsLower(c)
    ensures IsSlug(Join(parts, '-'))
  {
    var m := |parts| - 1;
    var last := parts[m];
    assert last in parts;
    assert forall i :: 0 <= i < |last| ==> last[i] in last;
    if m > 0 {
      var before := parts[..m];
      assert forall part :: part in before ==> part in parts;
      JoinIsSlug(before);
      SlugMore(Join(before, '-'), last);
    }
  }

  lemma SlugMore(s: string, part: string)
    requires IsSlug(s) && part != "" && forall c :: c in part ==> IsLower(c)
    ensures IsSlug(s + "-" + part)
  {
    var t := s + "-" + part;
    var n := |s|;
    assert forall i :: 0 <= i < |part| ==> part[i] in part;
    assert forall i :: 0 <= i < |t| ==> t[i] == if i < n then s[i] else if i == n then '-' else part[i - n - 1];
  }

  // ---- slugify

  lemma PartsAre(name: string)
    ensures forall part :: part in Parts(name) ==> part != "" && forall c :: c in part ==> IsLower(c)
    ensures Parts(name) != [] <==> HasAlphanumeric(name)
  {
    var mapped := Mapped(name);
    SplitCharacters(mapped);
    NonEmptyMembers(Split(mapped, '-'));
    forall part, c | part in Parts(name) && c in part ensures IsLower(c) {
      assert c in mapped && c != '-';
      var i :| 0 <= i < |mapped| && mapped[i] == c;
      assert IsAlphanumeric(name[i]);
    }
    if HasAlphanumeric(name) {
      var c :| c in name && IsAlphanumeric(c);
      var i :| 0 <= i < |name| && name[i] == c;
      assert mapped[i] == ToLower(c) && mapped[i] in mapped;
      SplitKeeps(mapped, ToLower(c));
    }
    if Parts(name) != [] {
      var part := Parts(name)[0];
      assert part in Parts(name);
      var c := part[0];
      assert c in part && c in mapped && c != '-';
      var i :| 0 <= i < |mapped| && mapped[i] == c;
      assert name[i] in name && IsAlphanumeric(name[i]);
    }
  }

  // The stretches of ASCII letters and digits of a name, as long as they go, in order.
  function Runs(name: string): seq<string> {
    if name == "" then [] else
      var n := |name| - 1;
      var runs := Runs(name[..n]);
      if !InRun(name[n]) then runs
      else if n == 0 || !InRun(name[n - 1]) || runs == [] then runs + [[name[n]]]
      else Extended(runs, [name[n]])
  }

  predicate InRun(c: char) {
    48 <= c as int <= 57 || 65 <= c as int <= 90 || 97 <= c as int <= 122
  }

  // The one text that is the lower case of another, letter by letter.
  ghost predicate Lowers(from: string, to: string) {
    && |from| == |to|
    && forall i :: 0 <= i < |from| ==>
         to[i] as int == from[i] as int + if 65 <= from[i] as int <= 90 then 32 else 0
  }

  ghost predicate LowersAll(from: seq<string>, to: seq<string>) {
    |from| == |to| && forall i :: 0 <= i < |from| ==> Lowers(from[i], to[i])
  }

  lemma MappedIs(c: char)
    ensures IsAlphanumeric(c) <==> InRun(c)
    ensures IsAlphanumeric(c) ==> ToLower(c) != '-' && Lowers([c], [ToLower(c)])
  {
  }

  lemma NonEmptyLast(parts: seq<string>)
    requires parts != []
    ensures var m := |parts| - 1;
            NonEmpty(parts) == NonEmpty(parts[..m]) + if parts[m] == "" then [] else [parts[m]]
  {
    var m := |parts| - 1;
    assert parts == parts[..m] + [parts[m]];
    SelectConcat(parts[..m], [parts[m]], (part: string) => part != "");
    assert [parts[m]][1..] == [];
  }

  lemma LowersMore(from: seq<string>, to: seq<string>, a: char, b: char)
    requires LowersAll(from, to) && Lowers([a], [b])
    ensures LowersAll(from + [[a]], to + [[b]])
    ensures from != [] ==> LowersAll(Extended(from, [a]), Extended(to, [b]))
  {
    if from != [] {
      var m := |from| - 1;
      var x, y := from[m] + [a], to[m] + [b];
      assert Lowers([a], [b]) ==> b as int == a as int + if 65 <= a as int <= 90 then 32 else 0 by {
        assert [b][0] == b && [a][0] == a;
      }
      assert Lowers(x, y);
    }
  }

  // What one more character does to the non-empty parts.
  lemma PartsNext(s: string, c: char)
    ensures var before, after := Split(s, '-'), Split(s + [c], '-');
            && (after[|after| - 1] == "" <==> c == '-')
            && (c == '-' ==> NonEmpty(after) == NonEmpty(before))
            && (c != '-' && before[|before| - 1] == "" ==> NonEmpty(after) == NonEmpty(before) + [[c]])
            && (c != '-' && before[|before| - 1] != "" ==>
                  NonEmpty(before) != [] && NonEmpty(after) == Extended(NonEmpty(before), [c]))
  {
    var before, after := Split(s, '-'), Split(s + [c], '-');
    SplitSnoc(s, c, '-');
    NonEmptyLast(before);
    NonEmptyLast(after);
    if c == '-' {
      assert after[..|before|] == before;
    } else {
      var m := |before| - 1;
      assert after[..m] == before[..m] && after[m] == before[m] + [c];
      if before[m] != "" {
        var parts := NonEmpty(before[..m]);
        assert (parts + [before[m]])[..|parts|] == parts;
      } else {
        assert NonEmpty(before) == NonEmpty(before[..m]) && after[m] == [c];
      }
    }
  }

  lemma {:induction false} RunsMapped(name: string)
    ensures LowersAll(Runs(name), Parts(name))
    ensures var parts := Split(Mapped(name), '-');
            parts[|parts| - 1] == "" <==> name == "" || !InRun(name[|name| - 1])
  {
    if name != "" {
      var n := |name| - 1;
      var front, c := name[..n], Mapped(name)[n];
      RunsMapped(front);
      MappedIs(name[n]);
      assert Mapped(name) == Mapped(front) + [c];
      PartsNext(Mapped(front), c);
      assert n > 0 ==> front[n - 1] == name[n - 1];
      if InRun(name[n]) {
        LowersMore(Runs(front), Parts(front), name[n], c);
        if n == 0 || !InRun(name[n - 1]) {
          assert Parts(name) == Parts(front) + [[c]];
        } else {
          assert Parts(name) == Extended(Parts(front), [c]) && Runs(front) != [];
        }
      } else {
        assert c == '-' && Parts(name) == Parts(front);
      }
    }
  }

  // The slug of a name is its stretches of ASCII letters and digits in lower case, joined by hyphens; without
  // any it is made of the id.
  lemma SlugIs(name: string, id: int) returns (parts: seq<string>)
    ensures LowersAll(Runs(name), parts)
    ensures if parts != [] then Slugify(name, id) == Join(parts, '-') else Slugify(name, id) == "shop-" + Format(id)
    ensures forall part :: part in parts ==> part != "" && '-' !in part
  {
    parts := Parts(name);
    RunsMapped(name);
    PartsAre(name);
    if parts != [] {
      JoinIsSlug(parts);
    }
  }

  // A slug is well formed exactly when the name has something to make it from or the id has no sign.
  lemma SlugWellFormedIff(name: string, id: int)
    ensures IsSlug(Slugify(name, id)) <==> HasAlphanumeric(name) || id >= 0
  {
    PartsAre(name);
    if HasAlphanumeric(name) {
      JoinIsSlug(Parts(name));
    } else {
      var s := "shop-" + Format(id);
      if id >= 0 {
        DigitsAre(id);
        assert Join(["shop"], '-') == "shop";
        JoinIsSlug(["shop"]);
        SlugMore("shop", Digits(id));
        assert "shop" + "-" + Digits(id) == s;
      } else {
        assert s[4] == '-' && s[5] == '-';
      }
    }
  }

  // A well-formed slug is its own slug.
  lemma SlugOfSlug(s: string, id: int)
    requires IsSlug(s)
    ensures Slugify(s, id) == s
  {
    assert Mapped(s) == s;
    JoinSplit(s, '-');
    SplitEmpty(s);
    var parts := Split(s, '-');
    forall part | part in parts ensures part != "" {
      var k :| 0 <= k < |parts| && parts[k] == part;
    }
    NonEmptyAll(parts);
  }

  lemma SlugifyIdempotentIff(name: string, id: int)
    ensures Slugify(Slugify(name, id), id) == Slugify(name, id) <==> HasAlphanumeric(name) || id >= 0
  {
    var slug := Slugify(name, id);
    SlugWellFormedIff(name, id);
    if IsSlug(slug) {
      SlugOfSlug(slug, id);
    } else {
      PartsAre(name);
      assert slug[0] == 's' && slug[0] in slug;
      assert HasAlphanumeric(slug);
      SlugWellFormedIff(slug, id);
    }
  }

  // ---- The catalog

  datatype Shop = Shop(id: int, suggested: string)

  ghost predicate Unique(slugs: map<int, string>) {
    forall a, b :: a in slugs && b in slugs && slugs[a] == slugs[b] ==> a == b
  }

  predicate Taken(slugs: map<int, string>, slug: string) {
    exists id :: id in slugs && slugs[id] == slug
  }

  function Fallback(shop: Shop): string {
    shop.suggested + "-" + Format(shop.id)
  }

  function StableSlug(slugs: map<int, string>, shop: Shop): string {
    if shop.id in slugs then slugs[shop.id]
    else if Taken(slugs, shop.suggested) then Fallback(shop)
    else shop.suggested
  }

  // Storing one shop; the unique index refuses a slug that another shop holds.
  function Stored(slugs: map<int, string>, shop: Shop): Result<map<int, string>> {
    if shop.id in slugs then Ok(slugs)
    else
      var slug := StableSlug(slugs, shop);
      if Taken(slugs, slug) then Rejected else Ok(slugs[shop.id := slug])
  }

  // One transaction: all shops, or none.
  function StoredAll(slugs: map<int, string>, shops: seq<Shop>): Result<map<int, string>> {
    if shops == [] then Ok(slugs) else
      var n := |shops| - 1;
      match StoredAll(slugs, shops[..n])
      case Rejected => Rejected
      case Ok(before) => Stored(before, shops[n])
  }

  // ---- Which catalogs commit, told from the table and the list before the call

  // The i-th shop is not yet stored when its turn comes.
  ghost predicate NewAt(slugs: map<int, string>, shops: seq<Shop>, i: nat)
    requires i < |shops|
  {
    shops[i].id !in slugs && forall j :: 0 <= j < i ==> shops[j].id != shops[i].id
  }

  // Some shop of the table or before place i holds the slug by then: a new shop leaves its suggested slug
  // held, by itself or by who held it before, and takes its fallback if the suggested one was held.
  ghost predicate Held(slugs: map<int, string>, shops: seq<Shop>, i: nat, slug: string)
    requires i <= |shops|
    decreases i, 0
  {
    || Taken(slugs, slug)
    || exists j: nat :: j < i && NewAt(slugs, shops, j) && HeldBy(slugs, shops, j, slug)
  }

  ghost predicate HeldBy(slugs: map<int, string>, shops: seq<Shop>, j: nat, slug: string)
    requires j < |shops|
    decreases j, 1
  {
    || shops[j].suggested == slug
    || (Fallback(shops[j]) == slug && Held(slugs, shops, j, shops[j].suggested))
  }

  ghost predicate Refused(slugs: map<int, string>, shops: seq<Shop>, i: nat)
    requires i < |shops|
  {
    && NewAt(slugs, shops, i)
    && Held(slugs, shops, i, shops[i].suggested)
    && Held(slugs, shops, i, Fallback(shops[i]))
  }

  lemma HeldStep(slugs: map<int, string>, shops: seq<Shop>, i: nat, slug: string)
    requires i < |shops|
    ensures Held(slugs, shops, i + 1, slug) <==>
              Held(slugs, shops, i, slug) || (NewAt(slugs, shops, i) && HeldBy(slugs, shops, i, slug))
  {
    if Held(slugs, shops, i + 1, slug) && !Taken(slugs, slug) {
      var j: nat :| j < i + 1 && NewAt(slugs, shops, j) && HeldBy(slugs, shops, j, slug);
    }
  }

  // The table that the shops before place i leave.
  ghost predicate Describes(slugs: map<int, string>, shops: seq<Shop>, i: nat, table: map<int, string>)
    requires i <= |shops|
  {
    && (forall id :: id in table <==> id in slugs || exists j :: 0 <= j < i && shops[j].id == id)
    && (forall slug :: Taken(table, slug) <==> Held(slugs, shops, i, slug))
  }

  lemma TakenAfter(slugs: map<int, string>, id: int, slug: string, other: string)
    requires id !in slugs
    ensures Taken(slugs[id := slug], other) <==> Taken(slugs, other) || other == slug
  {
    var after := slugs[id := slug];
    assert after[id] == slug;
    assert forall x :: x in slugs ==> x in after && after[x] == slugs[x];
  }

  lemma DescribesNext(slugs: map<int, string>, shops: seq<Shop>, i: nat, table: map<int, string>)
    requires i < |shops| && Describes(slugs, shops, i, table)
    ensures NewAt(slugs, shops, i) <==> shops[i].id !in table
    ensures Stored(table, shops[i]) == Rejected <==> Refused(slugs, shops, i)
    ensures Stored(table, shops[i]).Ok? ==> Describes(slugs, shops, i + 1, Stored(table, shops[i]).value)
  {
    var shop := shops[i];
    RefusedIff(table, shop);
    if Stored(table, shop).Ok? {
      var after := Stored(table, shop).value;
      forall slug ensures Taken(after, slug) <==> Held(slugs, shops, i + 1, slug) {
        HeldStep(slugs, shops, i, slug);
        if shop.id !in table {
          TakenAfter(table, shop.id, StableSlug(table, shop), slug);
        }
      }
      assert forall id :: id in after <==> id in table || id == shop.id;
    }
  }

  ghost predicate NoneRefused(slugs: map<int, string>, shops: seq<Shop>, i: nat)
    requires i <= |shops|
  {
    forall k :: 0 <= k < i ==> !Refused(slugs, shops, k)
  }

  // What the shops before place i come to.
  ghost predicate Foretold(slugs: map<int, string>, shops: seq<Shop>, i: nat, result: Result<map<int, string>>)
    requires i <= |shops|
  {
    && (result.Ok? <==> NoneRefused(slugs, shops, i))
    && (result.Ok? ==> Describes(slugs, shops, i, result.value))
  }

  lemma ForetoldAtStart(slugs: map<int, string>, shops: seq<Shop>)
    ensures Foretold(slugs, shops, 0, Ok(slugs))
  {
  }

  lemma ForetoldNext(slugs: map<int, string>, shops: seq<Shop>, i: nat, result: Result<map<int, string>>)
    requires i < |shops| && Foretold(slugs, shops, i, result)
    ensures Foretold(slugs, shops, i + 1, if result.Ok? then Stored(result.value, shops[i]) else Rejected)
  {
    assert NoneRefused(slugs, shops, i + 1) <==> NoneRefused(slugs, shops, i) && !Refused(slugs, shops, i);
    if result.Ok? {
      DescribesNext(slugs, shops, i, result.value);
    }
  }

  lemma {:induction false} PrefixForetold(slugs: map<int, string>, shops: seq<Shop>, i: nat)
    requires i <= |shops|
    ensures Foretold(slugs, shops, i, StoredAll(slugs, shops[..i]))
    decreases i
  {
    if i == 0 {
      assert shops[..0] == [];
      ForetoldAtStart(slugs, shops);
    } else {
      PrefixForetold(slugs, shops, i - 1);
      assert shops[..i][..i - 1] == shops[..i - 1];
      ForetoldNext(slugs, shops, i - 1, StoredAll(slugs, shops[..i - 1]));
    }
  }

  // A catalog commits exactly if no new shop in it finds both its slugs held by the table or by new shops
  // before it in the list.
  lemma CommitsIff(slugs: map<int, string>, shops: seq<Shop>)
    ensures StoredAll(slugs, shops).Ok? <==> NoneRefused(slugs, shops, |shops|)
  {
    PrefixForetold(slugs, shops, |shops|);
    assert shops[..|shops|] == shops;
  }

  // The slug of the j-th shop, if it is new: its own, or the one with its id if that is held by then.
  ghost predicate NamedAt(slugs: map<int, string>, shops: seq<Shop>, j: nat, table: map<int, string>)
    requires j < |shops|
  {
    NewAt(slugs, shops, j) ==>
      && shops[j].id in table
      && table[shops[j].id] ==
         if Held(slugs, shops, j, shops[j].suggested) then shops[j].suggested + "-" + Format(shops[j].id)
         else shops[j].suggested
  }

  ghost predicate Named(slugs: map<int, string>, shops: seq<Shop>, i: nat, table: map<int, string>)
    requires i <= |shops|
  {
    && (forall id :: id in slugs ==> id in table && table[id] == slugs[id])
    && (forall id :: id in table ==> id in slugs || exists j :: 0 <= j < i && shops[j].id == id)
    && (forall j: nat :: j < i ==> NamedAt(slugs, shops, j, table))
  }

  lemma NamedNext(slugs: map<int, string>, shops: seq<Shop>, i: nat, table: map<int, string>)
    requires i < |shops| && Describes(slugs, shops, i, table) && Named(slugs, shops, i, table)
    requires Stored(table, shops[i]).Ok?
    ensures Named(slugs, shops, i + 1, Stored(table, shops[i]).value)
  {
    var after := Stored(table, shops[i]).value;
    DescribesNext(slugs, shops, i, table);
    forall j: nat | j < i + 1 ensures NamedAt(slugs, shops, j, after) {
      if j < i {
        assert NamedAt(slugs, shops, j, table);
      }
    }
    forall id | id in after ensures id in slugs || exists j :: 0 <= j < i + 1 && shops[j].id == id {
      if id != shops[i].id && id !in slugs {
        var j :| 0 <= j < i && shops[j].id == id;
      }
    }
  }

  lemma {:induction false} PrefixNamed(slugs: map<int, string>, shops: seq<Shop>, i: nat)
    requires i <= |shops| && StoredAll(slugs, shops[..i]).Ok?
    ensures Named(slugs, shops, i, StoredAll(slugs, shops[..i]).value)
    decreases i
  {
    if i == 0 {
      assert shops[..0] == [];
    } else {
      assert shops[..i][..i - 1] == shops[..i - 1];
      PrefixNamed(slugs, shops, i - 1);
      PrefixForetold(slugs, shops, i - 1);
      NamedNext(slugs, shops, i - 1, StoredAll(slugs, shops[..i - 1]).value);
    }
  }

  // What a committed catalog makes of the table: stored slugs stay, and each new shop gets its own slug, or
  // the one with its id if the first is held by the table or by new shops before it.
  lemma CommittedIs(slugs: map<int, string>, shops: seq<Shop>)
    requires StoredAll(slugs, shops).Ok?
    ensures Named(slugs, shops, |shops|, StoredAll(slugs, shops).value)
  {
    assert shops[..|shops|] == shops;
    PrefixNamed(slugs, shops, |shops|);
  }

  // Fallbacks of shops with different ids differ, ids being without sign.
  lemma FallbackInjective(a: Shop, b: Shop)
    requires a.id >= 0 && b.id >= 0 && Fallback(a) == Fallback(b)
    ensures a.id == b.id
  {
    DigitsAre(a.id);
    DigitsAre(b.id);
    var parts, parts' := Split(a.suggested, '-'), Split(b.suggested, '-');
    assert '-' !in Digits(a.id) && '-' !in Digits(b.id);
    SplitPiece(a.suggested, Digits(a.id), '-');
    SplitPiece(b.suggested, Digits(b.id), '-');
    assert (parts + [Digits(a.id)])[|parts|] == (parts' + [Digits(b.id)])[|parts'|];
  }

  ghost predicate Uncontested(slugs: map<int, string>, shops: seq<Shop>, i: nat)
    requires i < |shops|
  {
    && !Taken(slugs, Fallback(shops[i]))
    && forall j :: 0 <= j < |shops| && NewAt(slugs, shops, j) && j != i ==> shops[j].suggested != Fallback(shops[i])
  }

  // It commits in every order if no new shop's fallback is in the table or suggested by another new shop.
  lemma UncontestedCommits(slugs: map<int, string>, shops: seq<Shop>)
    requires forall shop :: shop in shops ==> shop.id >= 0
    requires forall i :: 0 <= i < |shops| && NewAt(slugs, shops, i) ==> Uncontested(slugs, shops, i)
    ensures StoredAll(slugs, shops).Ok?
  {
    forall i | 0 <= i < |shops| ensures !Refused(slugs, shops, i) {
      if Refused(slugs, shops, i) {
        var j: nat :| j < i && NewAt(slugs, shops, j) && HeldBy(slugs, shops, j, Fallback(shops[i]));
        assert shops[i] in shops && shops[j] in shops;
        if Fallback(shops[j]) == Fallback(shops[i]) {
          FallbackInjective(shops[j], shops[i]);
        }
        assert false;
      }
    }
    CommitsIff(slugs, shops);
  }

  class Catalog {
    var slugs: map<int, string>

    constructor ()
      ensures slugs == map[]
    {
      slugs := map[];
    }

    method Persist(shops: seq<Shop>) returns (committed: bool)
      modifies this
      ensures committed <==> StoredAll(old(slugs), shops).Ok?
      ensures committed <==> NoneRefused(old(slugs), shops, |shops|)
      ensures committed ==> slugs == StoredAll(old(slugs), shops).value && Named(old(slugs), shops, |shops|, slugs)
      ensures !committed ==> slugs == old(slugs)
    {
      CommitsIff(slugs, shops);
      var rows := slugs;
      for i := 0 to |shops|
        invariant slugs == old(slugs)
        invariant StoredAll(slugs, shops[..i]) == Ok(rows)
      {
        assert shops[..i + 1][..i] == shops[..i];
        var shop := shops[i];
        var slug := StableSlug(rows, shop);
        if shop.id !in rows {
          if Taken(rows, slug) {
            RejectedStays(slugs, shops, i + 1);
            return false;
          }
          rows := rows[shop.id := slug];
        }
      }
      assert shops[..|shops|] == shops;
      CommittedIs(slugs, shops);
      slugs := rows;
      committed := true;
    }
  }

  lemma {:induction false} RejectedStays(slugs: map<int, string>, shops: seq<Shop>, i: nat)
    requires i <= |shops| && StoredAll(slugs, shops[..i]) == Rejected
    ensures StoredAll(slugs, shops) == Rejected
    decreases |shops|
  {
    if i < |shops| {
      var n := |shops| - 1;
      assert shops[..n][..i] == shops[..i];
      RejectedStays(slugs, shops[..n], i);
    } else {
      assert shops[..i] == shops;
    }
  }

  // A new shop is refused exactly when both its slug and the slug with its id are held by others.
  lemma RefusedIff(slugs: map<int, string>, shop: Shop)
    ensures Stored(slugs, shop) == Rejected <==>
              && shop.id !in slugs
              && Taken(slugs, shop.suggested)
              && Taken(slugs, Fallback(shop))
  {
  }

  ghost predicate Extends(before: map<int, string>, after: map<int, string>) {
    forall id :: id in before ==> id in after && after[id] == before[id]
  }

  lemma {:induction false} StoredAllKeeps(slugs: map<int, string>, shops: seq<Shop>)
    requires Unique(slugs) && StoredAll(slugs, shops).Ok?
    ensures Unique(StoredAll(slugs, shops).value) && Extends(slugs, StoredAll(slugs, shops).value)
    ensures forall shop :: shop in shops ==> shop.id in StoredAll(slugs, shops).value
  {
    if shops != [] {
      var n := |shops| - 1;
      StoredAllKeeps(slugs, shops[..n]);
      assert forall shop :: shop in shops ==> shop in shops[..n] || shop == shops[n];
    }
  }

  // A run of catalog refreshes; one that fails leaves the table as it was.
  function Refreshes(slugs: map<int, string>, catalogs: seq<seq<Shop>>): map<int, string>
    decreases |catalogs|
  {
    if catalogs == [] then slugs else
      var next := StoredAll(slugs, catalogs[0]);
      Refreshes(if next.Ok? then next.value else slugs, catalogs[1..])
  }

  // Over any run no stored slug ever changes, and no two shops share one.
  lemma {:induction false} SlugsAreStable(slugs: map<int, string>, catalogs: seq<seq<Shop>>)
    requires Unique(slugs)
    ensures Unique(Refreshes(slugs, catalogs)) && Extends(slugs, Refreshes(slugs, catalogs))
    decreases |catalogs|
  {
    if catalogs != [] {
      var next := StoredAll(slugs, catalogs[0]);
      if next.Ok? {
        StoredAllKeeps(slugs, catalogs[0]);
        SlugsAreStable(next.value, catalogs[1..]);
      } else {
        SlugsAreStable(slugs, catalogs[1..]);
      }
    }
  }

  // Three shops that in this order are never stored, however often the catalog comes: the third's fallback
  // is the second's name. In another order they are.
  lemma FallbackCanBeTaken(catalogs: seq<seq<Shop>>)
    requires forall c :: c in catalogs ==> c == [Shop(1, "foo"), Shop(2, "foo-3"), Shop(3, "foo")]
    ensures Refreshes(map[], catalogs) == map[]
    ensures StoredAll(map[], [Shop(1, "foo"), Shop(3, "foo"), Shop(2, "foo-3")]).Ok?
    decreases |catalogs|
  {
    FirstOrderRejected();
    OtherOrderStored();
    if catalogs != [] {
      assert catalogs[0] in catalogs && forall c :: c in catalogs[1..] ==> c in catalogs;
      FallbackCanBeTaken(catalogs[1..]);
    }
  }

  lemma FallbackOfThird()
    ensures Fallback(Shop(3, "foo")) == "foo-3" && Fallback(Shop(2, "foo-3")) == "foo-3-2"
  {
  }

  lemma FirstOrderRejected()
    ensures StoredAll(map[], [Shop(1, "foo"), Shop(2, "foo-3"), Shop(3, "foo")]) == Rejected
  {
    var shops := [Shop(1, "foo"), Shop(2, "foo-3"), Shop(3, "foo")];
    FallbackOfThird();
    assert NewAt(map[], shops, 0) && HeldBy(map[], shops, 0, "foo");
    assert NewAt(map[], shops, 1) && HeldBy(map[], shops, 1, "foo-3");
    assert Refused(map[], shops, 2);
    CommitsIff(map[], shops);
  }

  lemma OtherOrderStored()
    ensures StoredAll(map[], [Shop(1, "foo"), Shop(3, "foo"), Shop(2, "foo-3")]).Ok?
  {
    var shops := [Shop(1, "foo"), Shop(3, "foo"), Shop(2, "foo-3")];
    FallbackOfThird();
    assert |Digits(1)| == 1 && |Fallback(shops[0])| == 5 && Fallback(shops[0])[4] == '1';
    assert !HeldBy(map[], shops, 0, "foo-3") && !Held(map[], shops, 1, "foo-3");
    assert |"foo-3-2"| == 7;
    assert !Held(map[], shops, 2, "foo-3-2");
    assert !Refused(map[], shops, 0) && !Refused(map[], shops, 1) && !Refused(map[], shops, 2);
    CommitsIff(map[], shops);
  }
}
