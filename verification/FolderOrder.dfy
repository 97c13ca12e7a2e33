/** Folders are saved in a stable order of id length, so that parents come first. */
module FolderOrder {
  import opened Wrappers
  import opened StableSort

  datatype Folder = Folder(id: string, fields: string, parent: Option<string>)

  function IdLength(f: Folder): int {
    |f.id|
  }

  /** `sorted(folders, key=lambda f: len(f.id))`. */
  function SortByIdLength(fs: seq<Folder>): seq<Folder> {
    SortBy(fs, IdLength)
  }

  /** Every folder's parent occurs at or before it. */
  ghost predicate ParentsFirst(s: seq<Folder>) {
    forall k | 0 <= k < |s| && s[k].parent.Some? ::
      exists i :: 0 <= i <= k && s[i].id == s[k].parent.value
  }

  /** `p` has a shorter id than `f`, or one as long and was fetched no later. */
  ghost predicate Precedes(fs: seq<Folder>, p: Folder, f: Folder) {
    |p.id| < |f.id| || (|p.id| == |f.id| && Ordered(fs, p, f))
  }

  /** Every folder's parent is among the fetched folders, with a shorter id, or with one
      as long and fetched no later. */
  ghost predicate ParentsShorter(fs: seq<Folder>) {
    forall f | f in fs && f.parent.Some? :: exists p :: p in fs && p.id == f.parent.value && Precedes(fs, p, f)
  }

  /** Sorting by id length puts every parent first exactly when parents have shorter ids
      (or equally long ones, fetched earlier). */
  lemma SortPutsParentsFirstIff(fs: seq<Folder>)
    ensures ParentsFirst(SortByIdLength(fs)) <==> ParentsShorter(fs)
  {
    var s := SortByIdLength(fs);
    if ParentsFirst(s) {
      forall f | f in fs && f.parent.Some?
        ensures exists p :: p in fs && p.id == f.parent.value && Precedes(fs, p, f)
      {
        SameMembers(fs, IdLength, f);
        var k := FirstPosition(s, f);
        var i :| 0 <= i <= k && s[i].id == s[k].parent.value;
        StandsOrdered(s, i, k);
        SortOrders(fs, IdLength, s[i], f);
      }
    }
    if ParentsShorter(fs) {
      forall k | 0 <= k < |s| && s[k].parent.Some?
        ensures exists i :: 0 <= i <= k && s[i].id == s[k].parent.value
      {
        SameMembers(fs, IdLength, s[k]);
        var p :| p in fs && p.id == s[k].parent.value && Precedes(fs, p, s[k]);
        SortOrders(fs, IdLength, p, s[k]);
        var i := OrderedStands(s, p, k);
      }
    }
  }
}
