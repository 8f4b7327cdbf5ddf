/** The in-memory tag list and the three edits the handlers make to it: append a new tag,
    rename the first occurrence of a tag, remove the first occurrence of a tag. */
module TagList {
  import opened Text
  import opened TagFile

  predicate NoDuplicates<T(==)>(s: seq<T>) {
    forall i, j :: 0 <= i < j < |s| ==> s[i] != s[j]
  }

  /** Python's `list.index`: the position of the first occurrence. */
  function FirstIndex<T(==)>(s: seq<T>, x: T): (i: nat)
    requires x in s
    ensures i < |s| && s[i] == x && forall k :: 0 <= k < i ==> s[k] != x
  {
    if s[0] == x then 0
    else
      1 + FirstIndex(s[1..], x)
  }

  /** Python's `list.remove`, defined element by element. */
  function RemoveFirst<T(==)>(s: seq<T>, x: T): (r: seq<T>)
    requires x in s
    ensures |r| == |s| - 1
  {
    if s[0] == x then s[1..] else [s[0]] + RemoveFirst(s[1..], x)
  }

  /** Position by position, removal keeps the elements before the first occurrence and shifts
      the ones after it down by one. */
  lemma {:induction false} RemoveFirstAt<T>(s: seq<T>, x: T, k: nat)
    requires x in s && k < |s| - 1
    ensures RemoveFirst(s, x)[k] == if k < FirstIndex(s, x) then s[k] else s[k + 1]
  {
    if s[0] != x && k > 0 {
      RemoveFirstAt(s[1..], x, k - 1);
    }
  }

  /** Removal cuts out exactly the first occurrence; everything before and after keeps its order. */
  lemma RemoveFirstCutsFirst<T>(s: seq<T>, x: T)
    requires x in s
    ensures RemoveFirst(s, x) == s[..FirstIndex(s, x)] + s[FirstIndex(s, x) + 1..]
  {
    var i := FirstIndex(s, x);
    var r := RemoveFirst(s, x);
    var cut := s[..i] + s[i + 1..];
    forall k | 0 <= k < |r|
      ensures r[k] == cut[k]
    {
      RemoveFirstAt(s, x, k);
    }
  }

  /** Removal takes away one copy of `x` and nothing else. */
  lemma {:induction false} RemoveFirstMultiset<T>(s: seq<T>, x: T)
    requires x in s
    ensures multiset(RemoveFirst(s, x)) + multiset{x} == multiset(s)
  {
    assert s == [s[0]] + s[1..];
    if s[0] != x {
      RemoveFirstMultiset(s[1..], x);
    }
  }

  /** Removing an element keeps a duplicate-free list duplicate-free and removes the value entirely. */
  lemma RemoveFirstUnique<T>(s: seq<T>, x: T)
    requires x in s && NoDuplicates(s)
    ensures NoDuplicates(RemoveFirst(s, x))
    ensures x !in RemoveFirst(s, x)
  {
    var i := FirstIndex(s, x);
    var r := RemoveFirst(s, x);
    forall p, q | 0 <= p < q < |r|
      ensures r[p] != r[q]
    {
      RemoveFirstAt(s, x, p);
      RemoveFirstAt(s, x, q);
    }
    forall k | 0 <= k < |r|
      ensures r[k] != x
    {
      RemoveFirstAt(s, x, k);
    }
  }

  /** The list after `add_tag` with text field contents `input`. */
  function Added(tags: seq<string>, input: string): (r: seq<string>)
    ensures r == tags <==> Strip(input) == [] || Strip(input) in tags
    ensures r != tags ==> |r| == |tags| + 1 && r[..|tags|] == tags && r[|tags|] == Strip(input)
    ensures NoDuplicates(tags) ==> NoDuplicates(r)
    ensures (forall k :: 0 <= k < |tags| ==> IsCleanTag(tags[k])) ==> forall k :: 0 <= k < |r| ==> IsCleanTag(r[k])
  {
    var t := Strip(input);
    if t != [] && t !in tags then tags + [t] else tags
  }

  /** Whether `save_edited_tag(oldTag, newTag)` rewrites the list. */
  predicate RenameApplies(tags: seq<string>, oldTag: string, newTag: string) {
    Strip(newTag) != [] && Strip(newTag) != oldTag && oldTag in tags
  }

  /** The list after `save_edited_tag(oldTag, newTag)`: only the first occurrence of `oldTag` is
      replaced by the stripped new name; there is no check against the other tags. */
  function Renamed(tags: seq<string>, oldTag: string, newTag: string): (r: seq<string>)
    ensures |r| == |tags|
    ensures !RenameApplies(tags, oldTag, newTag) ==> r == tags
    ensures RenameApplies(tags, oldTag, newTag) ==>
      r[FirstIndex(tags, oldTag)] == Strip(newTag)
      && forall j :: 0 <= j < |tags| && j != FirstIndex(tags, oldTag) ==> r[j] == tags[j]
    ensures (forall k :: 0 <= k < |tags| ==> IsCleanTag(tags[k])) ==> forall k :: 0 <= k < |r| ==> IsCleanTag(r[k])
  {
    if RenameApplies(tags, oldTag, newTag) then tags[FirstIndex(tags, oldTag) := Strip(newTag)] else tags
  }

  /** Renaming can break uniqueness: renaming "cat" to "dog" in ["cat", "dog"] gives two "dog"s. */
  lemma RenameCanDuplicate()
    ensures NoDuplicates(["cat", "dog"])
    ensures Renamed(["cat", "dog"], "cat", "dog") == ["dog", "dog"]
    ensures !NoDuplicates(Renamed(["cat", "dog"], "cat", "dog"))
  {
    var s := ["cat", "dog"];
    var dog := "dog";
    assert s[0] == "cat" && s[1] == dog;
    assert FirstIndex(s, "cat") == 0;
    assert IsTrimmed(dog) by { assert dog[0] == 'd' && dog[2] == 'g'; }
    StripFixes(dog);
    assert "dog" != "cat";
    assert RenameApplies(s, "cat", dog);
    var r := Renamed(s, "cat", dog);
    assert r == s[0 := dog];
    assert r[0] == r[1];
  }

  /** Renaming to a name not already present keeps a duplicate-free list duplicate-free. */
  lemma RenameFreshUnique(tags: seq<string>, oldTag: string, newTag: string)
    requires NoDuplicates(tags) && Strip(newTag) !in tags
    ensures NoDuplicates(Renamed(tags, oldTag, newTag))
  {
  }

  /** An added tag survives the save that follows and a reload of the tag file, at the end of the list. */
  lemma AddPersists(files: map<string, string>, tags: seq<string>, input: string)
    requires forall k :: 0 <= k < |tags| ==> IsLineTag(tags[k])
    requires NoBreak(Strip(input))
    requires tags != [] || Strip(input) != []
    ensures LoadedTags(files[TagsFileName := Serialise(Added(tags, input))], true) == Added(tags, input)
  {
    var r := Added(tags, input);
    assert forall k :: 0 <= k < |r| ==> IsLineTag(r[k]) by {
      forall k | 0 <= k < |r|
        ensures IsLineTag(r[k])
      {
        if k == |tags| {
          assert r[k] == Strip(input);
        } else {
          assert r[k] == tags[k];
        }
      }
    }
    SaveThenLoad(files, r);
  }
}
