/**
 * What the three upload screens share: the selected file, the comma-tag
 * parser, the simulated progress bar and the category list they load, with
 * its seeding of twelve defaults into an empty collection.
 */
module Submission {
  import opened Wrappers
  import opened Types
  import opened Lists
  import Text
  import AdminService
  import AchievementService
  import CategoriesPage

  /** A file picked in a file input: its name and its size in bytes. */
  datatype File = File(name: string, size: nat)

  // ---------------------------------------------------------------- tags

  /** Every character of a trimmed text comes from the text. */
  lemma {:induction false} TrimInside(s: string)
    ensures forall c | c in Text.Trim(s) :: c in s
  {
    var a := Text.TrimStart(s);
    var r := Text.Trim(s);
    forall c | c in r ensures c in s {
      var i :| 0 <= i < |r| && r[i] == c;
      assert r[i] == a[i];
      assert a[i] == s[|s| - |a| + i];
    }
  }

  /** A text with no whitespace at either end is its own trim. */
  lemma {:induction false} TrimFixed(s: string)
    requires s == [] || (!Text.IsSpace(s[0]) && !Text.IsSpace(s[|s| - 1]))
    ensures Text.Trim(s) == s
  {
  }

  /** `pieces.map(t => t.trim())`. */
  function TrimEach(pieces: seq<string>): (r: seq<string>)
    ensures |r| == |pieces|
    ensures forall i | 0 <= i < |r| :: r[i] == Text.Trim(pieces[i])
  {
    seq(|pieces|, i requires 0 <= i < |pieces| => Text.Trim(pieces[i]))
  }

  /** Pieces with nothing to strip are left as they are. */
  lemma TrimEachFixed(pieces: seq<string>)
    requires forall i | 0 <= i < |pieces| :: Trimmed(pieces[i])
    ensures TrimEach(pieces) == pieces
  {
    forall i | 0 <= i < |pieces| ensures TrimEach(pieces)[i] == pieces[i] {
      TrimFixed(pieces[i]);
    }
  }

  /** A trimmed tag: nothing to strip at either end. */
  predicate Trimmed(t: string) {
    t == [] || (!Text.IsSpace(t[0]) && !Text.IsSpace(t[|t| - 1]))
  }

  /**
   * `tags ? tags.split(',').map(t => t.trim()) : []`: no tags for an empty
   * field, otherwise one trimmed tag per comma-separated piece.
   */
  function ParseTags(s: string): (tags: seq<string>)
    ensures s == "" ==> tags == []
    ensures s != "" ==> |tags| == multiset(s)[','] + 1
    ensures forall i | 0 <= i < |tags| :: ',' !in tags[i] && Trimmed(tags[i])
  {
    if s == "" then []
    else
      var pieces := Text.Split(s, ',');
      Text.SplitCount(s, ',');
      Text.SplitPiecesFree(s, ',');
      var tags := TrimEach(pieces);
      forall i | 0 <= i < |tags| ensures ',' !in tags[i] && Trimmed(tags[i]) {
        TrimInside(pieces[i]);
        assert pieces[i] in pieces;
      }
      tags
  }

  /** Tag i of a non-empty field is the i-th comma-separated piece, trimmed. */
  lemma TagsArePieces(s: string)
    requires s != ""
    ensures |ParseTags(s)| == |Text.Split(s, ',')|
    ensures forall i | 0 <= i < |ParseTags(s)| :: ParseTags(s)[i] == Text.Trim(Text.Split(s, ',')[i])
  {
  }

  /** A field whose pieces are already trimmed comes back from the tags joined with commas. */
  lemma TagsJoinBack(s: string)
    requires s != ""
    requires forall p | p in Text.Split(s, ',') :: Trimmed(p)
    ensures Text.Join(ParseTags(s), ',') == s
  {
    var pieces := Text.Split(s, ',');
    assert forall i | 0 <= i < |pieces| :: pieces[i] in pieces;
    TrimEachFixed(pieces);
    Text.JoinSplit(s, ',');
  }

  // ---------------------------------------------------------------- progress

  /** The values the progress bar is set to by `for (i = 0; i <= 100; i += 10)`, in order. */
  method SimulateProgress() returns (shown: seq<nat>)
    ensures |shown| == 11
    ensures forall k | 0 <= k < |shown| :: shown[k] == 10 * k
    ensures forall p: nat :: p in shown <==> p <= 100 && p % 10 == 0
    ensures forall i, j | 0 <= i < j < |shown| :: shown[i] < shown[j]
  {
    shown := [];
    var i := 0;
    while i <= 100
      invariant 0 <= i <= 110 && i % 10 == 0
      invariant |shown| == i / 10
      invariant forall k | 0 <= k < |shown| :: shown[k] == 10 * k
    {
      shown := shown + [i];
      i := i + 10;
    }
    forall p: nat | p <= 100 && p % 10 == 0 ensures p in shown {
      assert shown[p / 10] == p;
    }
  }

  // ---------------------------------------------------------------- the writes of a submit

  /**
   * The achievements once a student's submit has run its two writes: nothing
   * new when the create failed, the new record when only the create
   * succeeded, the record with its certificate when the upload and the
   * update of the record succeeded too.
   */
  function Written(
    docs: map<Id, Achievement>, record: Achievement, created: bool, uploaded: bool, url: string, picked: File, now: int)
    : (r: map<Id, Achievement>)
    requires uploaded ==> created
    ensures !created ==> r == docs
    ensures created ==> r.Keys == docs.Keys + {record.id}
    ensures forall k | k in docs && k != record.id :: k in r && r[k] == docs[k]
    ensures created ==> SameSubmission(record, r[record.id]) && SameReview(record, r[record.id])
    ensures created && !uploaded ==> r[record.id] == record
    ensures uploaded ==> (r[record.id].certificateUrl == url && r[record.id].certificateFileName == picked.name
      && r[record.id].certificateSize == picked.size)
  {
    if !created then docs
    else if !uploaded then docs[record.id := record]
    else docs[record.id := AchievementService.WithCertificate(record, url, picked.name, picked.size, now)]
  }

  // ---------------------------------------------------------------- the category list

  /** A default category the screens add to an empty collection. */
  datatype Seed = Seed(name: string, slug: string, description: string)

  const Defaults: seq<Seed> := [
    Seed("Hackathon", "hackathon", "Hackathon participation and wins"),
    Seed("Paper Presentation", "paper-presentation", "Academic paper presentations"),
    Seed("Coding Competition", "coding-competition", "Programming and coding competitions"),
    Seed("Technical Workshop", "technical-workshop", "Technical workshops and seminars"),
    Seed("Project Work", "project-work", "Software/Hardware projects"),
    Seed("Research", "research", "Research publications and findings"),
    Seed("Certification", "certification", "Professional certifications"),
    Seed("Sports", "sports", "Sports achievements and trophies"),
    Seed("Cultural Event", "cultural-event", "Cultural events and performances"),
    Seed("Leadership", "leadership", "Leadership roles and responsibilities"),
    Seed("Internship", "internship", "Internship experiences"),
    Seed("Other", "other", "Other achievements")
  ]

  /** The names shown when loading the categories throws. */
  const FallbackNames: seq<string> := [
    "Hackathon", "Paper Presentation", "Coding Competition", "Technical Workshop", "Project Work",
    "Research", "Certification", "Sports", "Cultural Event", "Leadership", "Internship", "Other"
  ]

  /** `cats.map(cat => cat.name)`. */
  function Names(cats: seq<Category>): (names: seq<string>)
    ensures |names| == |cats|
    ensures forall i | 0 <= i < |cats| :: names[i] == cats[i].name
  {
    seq(|cats|, i requires 0 <= i < |cats| => cats[i].name)
  }

  /** The names of the seeds, in order. */
  function SeedNames(seeds: seq<Seed>): (names: seq<string>)
    ensures |names| == |seeds|
    ensures forall i | 0 <= i < |seeds| :: names[i] == seeds[i].name
  {
    seq(|seeds|, i requires 0 <= i < |seeds| => seeds[i].name)
  }

  /** The fallback list names the defaults, in the same order. */
  lemma FallbackIsDefaultNames()
    ensures |Defaults| == |FallbackNames| == 12
    ensures forall i | 0 <= i < 12 :: Defaults[i].name == FallbackNames[i]
  {
  }

  /** The category added by the `n`-th step of the seeding loop, numbered from 0, under `id`. */
  function SeedCategory(seeds: seq<Seed>, id: Id, n: nat, now: int): (c: Category)
    requires n < |seeds|
    ensures c.name == seeds[n].name && c.slug == seeds[n].slug && c.order == 0
  {
    AdminService.NewCategory(id, seeds[n].name, seeds[n].slug, seeds[n].description, 0, now)
  }

  /** The collection after the first `n` seeds were added from id `start` on. */
  function Seeded(docs: map<Id, Category>, seeds: seq<Seed>, start: Id, n: nat, now: int): (r: map<Id, Category>)
    requires n <= |seeds|
    ensures forall k | k in r :: k in docs || start <= k < start + n
  {
    if n == 0 then docs
    else Seeded(docs, seeds, start, n - 1, now)[start + n - 1 := SeedCategory(seeds, start + n - 1, n - 1, now)]
  }

  /** The index of the first failing add, or the number of adds when none fails. */
  function FirstFailure(fails: seq<bool>): (k: nat)
    ensures k <= |fails|
    ensures k < |fails| ==> fails[k]
    ensures forall i | 0 <= i < k :: !fails[i]
  {
    if fails == [] then 0
    else if fails[0] then 0
    else FirstFailure(fails[1..]) + 1
  }

  /** The first failure found by scanning up to `i` is at `i`. */
  lemma {:induction false} FirstFailureAt(fails: seq<bool>, i: nat)
    requires i <= |fails| && (i < |fails| ==> fails[i])
    requires forall j | 0 <= j < i :: !fails[j]
    ensures FirstFailure(fails) == i
  {
    if i > 0 {
      FirstFailureAt(fails[1..], i - 1);
    }
  }

  /**
   * The loop of `loadCategories` that adds the seeds (the defaults) in
   * order; the first add that throws ends it, and the categories already
   * added stay.
   */
  method SeedDefaults(store: AdminService.CategoryStore, seeds: seq<Seed>, addFails: seq<bool>, now: int)
    returns (failed: bool)
    requires store.Valid() && |addFails| == |seeds|
    modifies store
    ensures store.Valid()
    ensures failed <==> FirstFailure(addFails) < |seeds|
    ensures store.docs == Seeded(old(store.docs), seeds, old(store.nextId), FirstFailure(addFails), now)
    ensures store.nextId == old(store.nextId) + FirstFailure(addFails)
  {
    var i := 0;
    ghost var start := store.nextId;
    while i < |seeds|
      invariant 0 <= i <= |seeds|
      invariant forall j | 0 <= j < i :: !addFails[j]
      invariant store.Valid()
      invariant store.docs == Seeded(old(store.docs), seeds, start, i, now) && store.nextId == start + i
    {
      var seed := seeds[i];
      var r := store.AddCategory(seed.name, seed.slug, seed.description, now, addFails[i]);
      if r.Err? {
        FirstFailureAt(addFails, i);
        return true;
      }
      i := i + 1;
    }
    FirstFailureAt(addFails, i);
    return false;
  }

  /**
   * `loadCategories` (the same in the three upload screens). The first read
   * swallows its errors, so a failed read looks like an empty collection and
   * starts the seeding; if an add throws, the screen falls back to the fixed
   * names. Otherwise the collection is read again and its names are shown.
   */
  method LoadCategories(
    store: AdminService.CategoryStore, firstReadFail: bool, addFails: seq<bool>, secondReadFail: bool, now: int)
    returns (names: seq<string>, fellBack: bool)
    requires store.Valid() && |addFails| == |Defaults|
    modifies store
    ensures store.Valid()
    ensures var first := if firstReadFail then [] else old(store.Listing());
      first != [] ==> (names == Names(first) && !fellBack
        && store.docs == old(store.docs) && store.nextId == old(store.nextId))
    ensures var first := if firstReadFail then [] else old(store.Listing());
      first == [] ==> (var k := FirstFailure(addFails);
        store.docs == Seeded(old(store.docs), Defaults, old(store.nextId), k, now) && store.nextId == old(store.nextId) + k
        && (fellBack <==> k < |Defaults|)
        && names == (if k < |Defaults| then FallbackNames else if secondReadFail then [] else Names(store.Listing())))
  {
    var cats := store.GetCategories(firstReadFail);
    fellBack := false;
    if |cats| == 0 {
      var failed := SeedDefaults(store, Defaults, addFails, now);
      if failed {
        return FallbackNames, true;
      }
      cats := store.GetCategories(secondReadFail);
    }
    names := Names(cats);
  }

  /** Adding at a key at or above the bound does not change the listing below it. */
  lemma {:induction false} ValuesIgnoresAbove(docs: map<Id, Category>, k: Id, c: Category, bound: nat)
    requires bound <= k
    ensures Values(docs[k := c], bound) == Values(docs, bound)
  {
    if bound > 0 {
      ValuesIgnoresAbove(docs, k, c, bound - 1);
    }
  }

  lemma {:induction false} ValuesOfEmpty(docs: map<Id, Category>, bound: nat)
    requires docs == map[]
    ensures Values(docs, bound) == []
  {
    if bound > 0 {
      ValuesOfEmpty(docs, bound - 1);
    }
  }

  lemma NamesAppend(cats: seq<Category>, c: Category)
    ensures Names(cats + [c]) == Names(cats) + [c.name]
  {
    assert |Names(cats + [c])| == |Names(cats) + [c.name]|;
    forall i | 0 <= i < |cats| + 1 ensures Names(cats + [c])[i] == (Names(cats) + [c.name])[i] {
      if i < |cats| {
        assert (cats + [c])[i] == cats[i];
      }
    }
  }

  /** Adding a document at the bound extends the listing up to the next bound by that document. */
  lemma ValuesStep(docs: map<Id, Category>, k: Id, c: Category)
    ensures Values(docs[k := c], k + 1) == Values(docs, k) + [c]
  {
    ValuesIgnoresAbove(docs, k, c, k);
  }

  /** The names listed after seeding `n` categories into an empty collection are the first `n` seed names. */
  lemma {:induction false} SeededNames(seeds: seq<Seed>, start: Id, n: nat, now: int)
    requires n <= |seeds|
    ensures Names(Values(Seeded(map[], seeds, start, n, now), start + n)) == SeedNames(seeds[..n])
  {
    if n == 0 {
      ValuesOfEmpty(map[], start);
    } else {
      var before := Seeded(map[], seeds, start, n - 1, now);
      var c := SeedCategory(seeds, start + n - 1, n - 1, now);
      var listed := Values(before, start + n - 1);
      calc {
        Names(Values(Seeded(map[], seeds, start, n, now), start + n));
        Names(Values(before[start + n - 1 := c], start + n - 1 + 1));
        { ValuesStep(before, start + n - 1, c); }
        Names(listed + [c]);
        { NamesAppend(listed, c); }
        Names(listed) + [c.name];
        { SeededNames(seeds, start, n - 1, now); }
        SeedNames(seeds[..n - 1]) + [seeds[n - 1].name];
        SeedNames(seeds[..n]);
      }
    }
  }

  /**
   * Seeding an empty collection without failures lists exactly the fallback
   * names: the screen shows the same categories whether or not it falls
   * back.
   */
  lemma SeedingShowsFallbackNames(start: Id, now: int)
    ensures Names(Values(Seeded(map[], Defaults, start, |Defaults|, now), start + |Defaults|)) == FallbackNames
  {
    SeededNames(Defaults, start, |Defaults|, now);
    FallbackIsDefaultNames();
    assert Defaults[..|Defaults|] == Defaults;
  }

  lemma NamesConcat(a: seq<Category>, b: seq<Category>)
    ensures Names(a + b) == Names(a) + Names(b)
  {
    assert |Names(a + b)| == |Names(a) + Names(b)|;
    forall i | 0 <= i < |a| + |b| ensures Names(a + b)[i] == (Names(a) + Names(b))[i] {
      if i < |a| {
        assert (a + b)[i] == a[i];
      } else {
        assert (a + b)[i] == b[i - |a|];
      }
    }
  }

  /** Listing the same categories in another order lists the same names, in that other order. */
  lemma {:induction false} NamesPermutation(a: seq<Category>, b: seq<Category>)
    requires multiset(a) == multiset(b)
    ensures multiset(Names(a)) == multiset(Names(b))
    decreases |a|
  {
    if a == [] {
      assert |b| == |multiset(b)| == 0;
    } else {
      var x := a[0];
      assert x in multiset(b);
      var k :| 0 <= k < |b| && b[k] == x;
      var rest := b[..k] + b[k + 1..];
      assert multiset(rest) == multiset(b) - multiset{x} by {
        assert b == b[..k] + [x] + b[k + 1..];
      }
      assert multiset(a[1..]) == multiset(a) - multiset{x} by {
        assert a == [x] + a[1..];
      }
      NamesPermutation(a[1..], rest);
      assert a == [x] + a[1..] && b == b[..k] + [x] + b[k + 1..];
      NamesConcat([x], a[1..]);
      NamesConcat(b[..k], [x]);
      NamesConcat(b[..k] + [x], b[k + 1..]);
      NamesConcat(b[..k], b[k + 1..]);
    }
  }

  /**
   * The seeded categories in whatever order the store returns them: the
   * names shown are the fallback names, each as often, in some order.
   */
  lemma SeedingShowsFallbackNamesAnyOrder(start: Id, now: int, listing: seq<Category>)
    requires multiset(listing) == multiset(Values(Seeded(map[], Defaults, start, |Defaults|, now), start + |Defaults|))
    ensures multiset(Names(listing)) == multiset(FallbackNames)
  {
    SeedingShowsFallbackNames(start, now);
    NamesPermutation(listing, Values(Seeded(map[], Defaults, start, |Defaults|, now), start + |Defaults|));
  }
}
