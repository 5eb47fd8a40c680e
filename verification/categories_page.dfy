/**
 * The admin category page: the slug built from a category name, and the
 * page's local list kept in step with the `categories` collection.
 */
module CategoriesPage {
  import opened Wrappers
  import opened Types
  import opened Lists
  import Text
  import AdminService

  // ---------------------------------------------------------------- slug

  /** `replace(/\s+/g, '-')`: every maximal run of whitespace becomes one `-`. */
  function Collapse(s: string): (r: string)
    ensures Text.NoSpace(r)
    decreases |s|
  {
    if s == [] then []
    else if Text.IsSpace(s[0]) then
      var tail := Collapse(Text.TrimStart(s[1..]));
      assert forall i | 1 <= i < |tail| + 1 :: ("-" + tail)[i] == tail[i - 1];
      "-" + tail
    else
      var tail := Collapse(s[1..]);
      assert forall i | 1 <= i < |tail| + 1 :: ([s[0]] + tail)[i] == tail[i - 1];
      [s[0]] + tail
  }

  /** Collapsing keeps a lowercase text lowercase: `-` is not a capital letter. */
  lemma {:induction false} CollapseKeepsLower(s: string)
    requires Text.IsLower(s)
    ensures Text.IsLower(Collapse(s))
    decreases |s|
  {
    if s != [] {
      if Text.IsSpace(s[0]) {
        var t := Text.TrimStart(s[1..]);
        assert forall i | 0 <= i < |t| :: t[i] == s[1..][|s| - 1 - |t| + i];
        CollapseKeepsLower(t);
        var tail := Collapse(t);
        assert forall i | 1 <= i < |tail| + 1 :: ("-" + tail)[i] == tail[i - 1];
      } else {
        CollapseKeepsLower(s[1..]);
        var tail := Collapse(s[1..]);
        assert forall i | 1 <= i < |tail| + 1 :: ([s[0]] + tail)[i] == tail[i - 1];
      }
    }
  }

  /** The slug of a category name: lowercased, whitespace runs replaced by `-`. */
  function Slug(name: string): (slug: string)
    ensures Text.NoSpace(slug) && Text.IsLower(slug)
  {
    Text.ToLowerIsLower(name);
    CollapseKeepsLower(Text.ToLower(name));
    Collapse(Text.ToLower(name))
  }

  /** A text without whitespace is left as it is. */
  lemma {:induction false} CollapseNoSpace(s: string)
    requires Text.NoSpace(s)
    ensures Collapse(s) == s
  {
    if s != [] {
      CollapseNoSpace(s[1..]);
    }
  }

  /**
   * One run: a word, then a whitespace run, then text that does not start
   * with whitespace, gives the word, one `-`, and the rest treated alike.
   */
  lemma {:induction false} CollapseRun(word: string, run: string, rest: string)
    requires Text.NoSpace(word) && |run| > 0 && Text.AllSpace(run)
    requires rest == [] || !Text.IsSpace(rest[0])
    ensures Collapse(word + run + rest) == word + "-" + Collapse(rest)
  {
    var s := word + run + rest;
    if word == [] {
      assert s == run + rest && Text.IsSpace(s[0]);
      assert s[1..] == run[1..] + rest;
      assert Text.AllSpace(run[1..]) by {
        forall i | 0 <= i < |run| - 1 ensures Text.IsSpace(run[1..][i]) {
          assert run[1..][i] == run[i + 1];
        }
      }
      TrimStartRun(run[1..], rest);
      assert Collapse(s) == "-" + Collapse(rest);
    } else {
      assert s[0] == word[0] && !Text.IsSpace(s[0]);
      assert s[1..] == word[1..] + run + rest;
      assert Text.NoSpace(word[1..]) by {
        forall i | 0 <= i < |word| - 1 ensures !Text.IsSpace(word[1..][i]) {
          assert word[1..][i] == word[i + 1];
        }
      }
      CollapseRun(word[1..], run, rest);
      assert Collapse(s) == [word[0]] + (word[1..] + "-" + Collapse(rest));
      assert word == [word[0]] + word[1..];
    }
  }

  /** Dropping leading whitespace from a run followed by a non-blank start leaves that start. */
  lemma {:induction false} TrimStartRun(run: string, rest: string)
    requires Text.AllSpace(run)
    requires rest == [] || !Text.IsSpace(rest[0])
    ensures Text.TrimStart(run + rest) == rest
  {
    if run != [] {
      assert (run + rest)[1..] == run[1..] + rest;
      TrimStartRun(run[1..], rest);
    } else {
      assert run + rest == rest;
    }
  }

  /** Building a slug from a slug changes nothing. */
  lemma SlugIdempotent(name: string)
    ensures Slug(Slug(name)) == Slug(name)
  {
    var slug := Slug(name);
    Text.LowerFixpoint(slug);
    CollapseNoSpace(slug);
  }

  // ---------------------------------------------------------------- the page

  function IdIsNot(id: Id): Category -> bool {
    (c: Category) => c.id != id
  }

  class Page {
    var categories: seq<Category>
    var newCategoryName: string
    var newCategoryDesc: string

    constructor ()
      ensures categories == [] && newCategoryName == "" && newCategoryDesc == ""
    {
      categories := [];
      newCategoryName := "";
      newCategoryDesc := "";
    }

    /** The first read of the collection when the page opens. */
    method FetchCategories(store: AdminService.CategoryStore, fail: bool)
      modifies this
      ensures categories == (if fail then [] else store.Listing())
      ensures newCategoryName == old(newCategoryName) && newCategoryDesc == old(newCategoryDesc)
    {
      categories := store.GetCategories(fail);
    }

    /**
     * `handleAddCategory`: add a category whose order is the number of
     * categories listed, then replace the list by a fresh read and clear the
     * inputs. A failed add changes nothing; a failed re-read empties the list.
     */
    method HandleAddCategory(store: AdminService.CategoryStore, now: int, addFail: bool, readFail: bool)
      requires store.Valid()
      modifies this, store
      ensures store.Valid()
      ensures addFail ==> (store.docs == old(store.docs) && store.nextId == old(store.nextId)
        && categories == old(categories) && newCategoryName == old(newCategoryName) && newCategoryDesc == old(newCategoryDesc))
      ensures !addFail ==> var id := old(store.nextId);
        store.docs == old(store.docs)[id := AdminService.NewCategory(
          id, old(newCategoryName), Slug(old(newCategoryName)), old(newCategoryDesc), |old(categories)|, now)]
        && categories == (if readFail then [] else store.Listing())
        && newCategoryName == "" && newCategoryDesc == ""
    {
      var slug := Slug(newCategoryName);
      var r := store.AddCategory(newCategoryName, slug, newCategoryDesc, now, addFail, |categories|);
      if r.Err? {
        return;
      }
      var updated := store.GetCategories(readFail);
      categories := updated;
      newCategoryName := "";
      newCategoryDesc := "";
    }

    /**
     * `handleDeleteCategory`: nothing happens unless the user confirms; after
     * a successful delete the category leaves the local list, the others keep
     * their order.
     */
    method HandleDeleteCategory(store: AdminService.CategoryStore, categoryId: Id, confirmed: bool, fail: bool)
      requires store.Valid()
      modifies this, store
      ensures store.Valid() && store.nextId == old(store.nextId)
      ensures store.docs == (if confirmed && !fail then old(store.docs) - {categoryId} else old(store.docs))
      ensures categories == (if confirmed && !fail then Filter(old(categories), IdIsNot(categoryId)) else old(categories))
      ensures newCategoryName == old(newCategoryName) && newCategoryDesc == old(newCategoryDesc)
    {
      if !confirmed {
        return;
      }
      var r := store.DeleteCategory(categoryId, fail);
      if r.Ok? {
        categories := Filter(categories, IdIsNot(categoryId));
      }
    }
  }

  /** The local delete removes exactly the categories with that id and keeps the rest in order. */
  lemma LocalDeleteRemovesOnlyThatId(categories: seq<Category>, categoryId: Id)
    ensures forall c :: c in Filter(categories, IdIsNot(categoryId)) <==> c in categories && c.id != categoryId
    ensures Subsequence(Filter(categories, IdIsNot(categoryId)), categories)
  {
    FilterMembers(categories, IdIsNot(categoryId));
    FilterSubsequence(categories, IdIsNot(categoryId));
  }
}
