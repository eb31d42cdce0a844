/** Replacing the asset directories of several tasks at once: back up, copy, and roll back. A removal
    succeeds; a rename, in the rollback too, or a copy may fail. */
module Assets {
  import opened Wrappers

  datatype Tree = Tree(files: map<string, string>)

  datatype Folder = Folder(destination: Option<Tree>, backup: Option<Tree>)

  /** Which renames to a backup, copies, and renames back succeed, and what a failing copy leaves. */
  datatype Luck = Luck(renames: nat -> bool, copies: nat -> bool, parts: nat -> Option<Tree>, restores: nat -> bool)

  predicate AllRename(before: seq<Folder>, luck: Luck) {
    forall i :: 0 <= i < |before| && before[i].destination.Some? ==> luck.renames(i)
  }

  predicate AllCopy(sources: seq<Option<Tree>>, luck: Luck) {
    forall i :: 0 <= i < |sources| && sources[i].Some? ==> luck.copies(i)
  }

  /** Every existing destination could be brought back. */
  predicate AllRestore(before: seq<Folder>, luck: Luck) {
    forall i :: 0 <= i < |before| && before[i].destination.Some? ==> luck.restores(i)
  }

  /** The first of the tree slots, from `i` on, that is full and fails; their number if there is none. */
  function FirstFailure(slots: seq<Option<Tree>>, works: nat -> bool, i: nat): (k: nat)
    requires i <= |slots|
    ensures i <= k <= |slots|
    ensures k < |slots| ==> slots[k].Some? && !works(k)
    ensures forall j :: i <= j < k && slots[j].Some? ==> works(j)
    decreases |slots| - i
  {
    if i == |slots| || (slots[i].Some? && !works(i)) then i else FirstFailure(slots, works, i + 1)
  }

  lemma {:induction false} FailureIs(slots: seq<Option<Tree>>, works: nat -> bool, k: nat)
    requires k <= |slots| && (k < |slots| ==> slots[k].Some? && !works(k))
    requires forall j :: 0 <= j < k && slots[j].Some? ==> works(j)
    ensures FirstFailure(slots, works, 0) == k
  {
    var first := FirstFailure(slots, works, 0);
    assert first > k ==> works(k);
  }

  function Destinations(folders: seq<Folder>): seq<Option<Tree>> {
    seq(|folders|, i requires 0 <= i < |folders| => folders[i].destination)
  }

  function Backups(folders: seq<Folder>): seq<Option<Tree>> {
    seq(|folders|, i requires 0 <= i < |folders| => folders[i].backup)
  }

  // --- what the stages leave ---

  /** Destinations moved aside, up to the first that cannot be. */
  function BackedUp(before: seq<Folder>, luck: Luck): seq<Folder> {
    var k := FirstFailure(Destinations(before), luck.renames, 0);
    seq(|before|, i requires 0 <= i < |before| =>
      if i < k then Folder(None, before[i].destination) else Folder(before[i].destination, None))
  }

  /** Sources copied, up to the first that cannot be, of which a part is left. */
  function Copied(folders: seq<Folder>, sources: seq<Option<Tree>>, luck: Luck): seq<Folder>
    requires |sources| == |folders|
  {
    var k := FirstFailure(sources, luck.copies, 0);
    seq(|folders|, i requires 0 <= i < |folders| =>
      folders[i].(destination := if i < k then sources[i] else if i == k then luck.parts(i) else None))
  }

  /** Destinations removed and backups brought back, up to the first that cannot be. */
  function RolledBack(folders: seq<Folder>, luck: Luck): seq<Folder> {
    var k := FirstFailure(Backups(folders), luck.restores, 0);
    seq(|folders|, i requires 0 <= i < |folders| =>
      if i < k then Folder(folders[i].backup, None)
      else if i == k then Folder(None, folders[i].backup) else folders[i])
  }

  /** What replacing leaves, backups included. */
  function Replaced(before: seq<Folder>, sources: seq<Option<Tree>>, luck: Luck): seq<Folder>
    requires |sources| == |before|
  {
    if !AllRename(before, luck) then RolledBack(BackedUp(before, luck), luck)
    else if !AllCopy(sources, luck) then RolledBack(Copied(BackedUp(before, luck), sources, luck), luck)
    else seq(|before|, i requires 0 <= i < |before| => Folder(sources[i], None))
  }

  ghost predicate Fails(before: seq<Folder>, sources: seq<Option<Tree>>, luck: Luck) {
    !(AllRename(before, luck) && AllCopy(sources, luck))
  }

  // --- what a failure restores, and what it loses ---

  /** A failure leaves every destination as it was if and only if it was a copy that failed and every
      rename back worked. */
  lemma {:induction false} FailureRestoresIff(before: seq<Folder>, sources: seq<Option<Tree>>, luck: Luck)
    requires |sources| == |before| && Fails(before, sources, luck)
    ensures Destinations(Replaced(before, sources, luck)) == Destinations(before)
       <==> AllRename(before, luck) && AllRestore(before, luck)
  {
    var after := Replaced(before, sources, luck);
    if AllRename(before, luck) {
      RestoredAfterCopying(before, sources, luck);
    } else {
      LostAfterRenaming(before, luck);
    }
  }

  lemma {:induction false} RestoredAfterCopying(before: seq<Folder>, sources: seq<Option<Tree>>, luck: Luck)
    requires |sources| == |before| && AllRename(before, luck)
    ensures var after := RolledBack(Copied(BackedUp(before, luck), sources, luck), luck);
      && (Destinations(after) == Destinations(before) <==> AllRestore(before, luck))
      && forall i :: 0 <= i < |before| && before[i].destination.Some? ==> Kept(before, after, i)
  {
    FailureIs(Destinations(before), luck.renames, |before|);
    var mid := Copied(BackedUp(before, luck), sources, luck);
    assert Backups(mid) == Destinations(before);
    var k := FirstFailure(Backups(mid), luck.restores, 0);
    var after := RolledBack(mid, luck);
    if k < |before| {
      assert Destinations(before)[k].Some? && Destinations(after)[k].None?;
    } else {
      assert forall i :: 0 <= i < |before| ==> Destinations(after)[i] == Destinations(before)[i];
      assert forall i :: 0 <= i < |before| ==> Destinations(before)[i] == before[i].destination;
    }
  }

  lemma {:induction false} LostAfterRenaming(before: seq<Folder>, luck: Luck)
    requires !AllRename(before, luck)
    ensures Destinations(RolledBack(BackedUp(before, luck), luck)) != Destinations(before)
  {
    var stop := FirstFailure(Destinations(before), luck.renames, 0);
    NotAllRename(before, luck);
    var mid := BackedUp(before, luck);
    var k := FirstFailure(Backups(mid), luck.restores, 0);
    var after := RolledBack(mid, luck);
    if k < |before| {
      assert Backups(mid)[k].Some? && Destinations(after)[k].None? && Destinations(before)[k].Some?;
    } else {
      assert Destinations(after)[stop].None? && Destinations(before)[stop].Some?;
    }
  }

  lemma {:induction false} NotAllRename(before: seq<Folder>, luck: Luck)
    requires !AllRename(before, luck)
    ensures FirstFailure(Destinations(before), luck.renames, 0) < |before|
  {
    var i :| 0 <= i < |before| && before[i].destination.Some? && !luck.renames(i);
    assert Destinations(before)[i].Some?;
  }

  /** A directory that was there still is, in its place or as its backup. */
  ghost predicate Kept(before: seq<Folder>, after: seq<Folder>, i: nat)
    requires i < |before| && i < |after|
  {
    after[i].destination == before[i].destination || after[i].backup == before[i].destination
  }

  ghost predicate AllKept(before: seq<Folder>, after: seq<Folder>)
    requires |after| == |before|
  {
    forall i :: 0 <= i < |before| && before[i].destination.Some? ==> Kept(before, after, i)
  }

  /** A directory moved aside that cannot be brought back. */
  ghost predicate Jams(before: seq<Folder>, luck: Luck, i: nat)
    requires i < |before|
  {
    i < FirstFailure(Destinations(before), luck.renames, 0) && before[i].destination.Some? && !luck.restores(i)
  }

  /** A failure loses a directory for good if and only if a rename to a backup failed and nothing stopped the
      rollback before it. */
  lemma {:induction false} FailureKeepsAllIff(before: seq<Folder>, sources: seq<Option<Tree>>, luck: Luck)
    requires |sources| == |before| && Fails(before, sources, luck)
    ensures AllKept(before, Replaced(before, sources, luck))
       <==> AllRename(before, luck) || exists i :: 0 <= i < |before| && Jams(before, luck, i)
  {
    if AllRename(before, luck) {
      RestoredAfterCopying(before, sources, luck);
    } else {
      KeptAfterRenaming(before, luck);
    }
  }

  lemma {:induction false} KeptAfterRenaming(before: seq<Folder>, luck: Luck)
    requires !AllRename(before, luck)
    ensures AllKept(before, RolledBack(BackedUp(before, luck), luck))
       <==> exists i :: 0 <= i < |before| && Jams(before, luck, i)
  {
    var stop := FirstFailure(Destinations(before), luck.renames, 0);
    NotAllRename(before, luck);
    var mid := BackedUp(before, luck);
    var k := FirstFailure(Backups(mid), luck.restores, 0);
    var after := RolledBack(mid, luck);
    assert before[stop].destination == Destinations(before)[stop];
    if k < |before| {
      assert Backups(mid)[k] == mid[k].backup;
      assert Jams(before, luck, k);
    } else {
      assert !Kept(before, after, stop);
      forall i | 0 <= i < |before| ensures !Jams(before, luck, i) {
        if i < stop { assert Backups(mid)[i] == before[i].destination; }
      }
    }
  }

  /** A directory that cannot be moved aside is deleted, and so are those after it. */
  lemma {:induction false} RenameFailureLosesFolders(first: Tree, second: Tree, source: Tree)
    ensures
      var before := [Folder(Some(first), None), Folder(Some(second), None)];
      Replaced(before, [Some(source), Some(source)], Luck(i => i > 0, i => true, i => None, i => true))
        == [Folder(None, None), Folder(None, None)]
  {
    var before := [Folder(Some(first), None), Folder(Some(second), None)];
    var luck := Luck(i => i > 0, i => true, i => None, i => true);
    assert before[0].destination.Some?;
    FailureIs(Destinations(before), luck.renames, 0);
    FailureIs(Backups(BackedUp(before, luck)), luck.restores, 2);
  }

  class Store {
    var folders: seq<Folder>

    constructor (folders: seq<Folder>)
      ensures this.folders == folders
    {
      this.folders := folders;
    }

    method SetDestination(i: nat, tree: Option<Tree>)
      requires i < |folders|
      modifies this
      ensures folders == old(folders)[i := Folder(tree, old(folders)[i].backup)]
    {
      folders := folders[i := folders[i].(destination := tree)];
    }

    method DropBackups()
      modifies this
      ensures |folders| == |old(folders)|
      ensures forall i :: 0 <= i < |folders| ==> folders[i] == Folder(old(folders)[i].destination, None)
    {
      var i := 0;
      while i < |folders|
        invariant 0 <= i <= |folders| == |old(folders)|
        invariant forall k :: 0 <= k < |folders| ==>
          folders[k] == if k < i then Folder(old(folders)[k].destination, None) else old(folders)[k]
      {
        folders := folders[i := folders[i].(backup := None)];
        i := i + 1;
      }
    }

    /** Move every existing destination to its backup, up to the first one that cannot be. */
    method BackUp(luck: Luck) returns (ok: bool)
      requires forall i :: 0 <= i < |folders| ==> folders[i].backup.None?
      modifies this
      ensures ok <==> AllRename(old(folders), luck)
      ensures folders == BackedUp(old(folders), luck)
    {
      var i := 0;
      while i < |folders|
        invariant 0 <= i <= |folders| == |old(folders)|
        invariant forall k :: 0 <= k < i && old(folders)[k].destination.Some? ==> luck.renames(k)
        invariant forall k :: 0 <= k < |folders| ==>
          folders[k] == if k < i then Folder(None, old(folders)[k].destination) else old(folders)[k]
      {
        if folders[i].destination.Some? {
          if !luck.renames(i) {
            FailureIs(Destinations(old(folders)), luck.renames, i);
            return false;
          }
          folders := folders[i := Folder(None, folders[i].destination)];
        }
        i := i + 1;
      }
      FailureIs(Destinations(old(folders)), luck.renames, i);
      return true;
    }

    /** Copy every source that is there; a copy that fails leaves a part of it. */
    method CopyAll(sources: seq<Option<Tree>>, luck: Luck) returns (ok: bool)
      requires |sources| == |folders| && forall i :: 0 <= i < |folders| ==> folders[i].destination.None?
      modifies this
      ensures ok <==> AllCopy(sources, luck)
      ensures folders == Copied(old(folders), sources, luck)
    {
      var i := 0;
      while i < |sources|
        invariant 0 <= i <= |sources| == |folders| == |old(folders)|
        invariant forall k :: 0 <= k < i && sources[k].Some? ==> luck.copies(k)
        invariant forall k :: 0 <= k < |folders| ==>
          folders[k] == Folder(if k < i then sources[k] else None, old(folders)[k].backup)
      {
        if sources[i].Some? {
          SetDestination(i, if luck.copies(i) then sources[i] else luck.parts(i));
          if !luck.copies(i) {
            FailureIs(sources, luck.copies, i);
            return false;
          }
        }
        i := i + 1;
      }
      FailureIs(sources, luck.copies, i);
      return true;
    }

    /** Remove every destination and bring back its backup, up to the first that cannot be. */
    method RollBack(luck: Luck)
      modifies this
      ensures folders == RolledBack(old(folders), luck)
    {
      var i := 0;
      while i < |folders|
        invariant 0 <= i <= |folders| == |old(folders)|
        invariant forall k :: 0 <= k < i && old(folders)[k].backup.Some? ==> luck.restores(k)
        invariant forall k :: 0 <= k < |folders| ==>
          folders[k] == if k < i then Folder(old(folders)[k].backup, None) else old(folders)[k]
      {
        SetDestination(i, None);
        if folders[i].backup.Some? {
          if !luck.restores(i) {
            FailureIs(Backups(old(folders)), luck.restores, i);
            return;
          }
          folders := folders[i := Folder(folders[i].backup, None)];
        }
        i := i + 1;
      }
      FailureIs(Backups(old(folders)), luck.restores, i);
    }

    /** Replace all destinations, or fail and roll back as far as that goes. */
    method Replace(sources: seq<Option<Tree>>, luck: Luck) returns (ok: bool)
      requires |sources| == |folders|
      modifies this
      ensures ok <==> !Fails(old(folders), sources, luck)
      ensures folders == Replaced(old(folders), sources, luck)
    {
      ghost var before := folders;
      DropBackups();
      SameDestinations(before, folders, luck);
      ok := BackUp(luck);
      if ok {
        FailureIs(Destinations(before), luck.renames, |before|);
        ok := CopyAll(sources, luck);
      }
      if !ok {
        RollBack(luck);
        return false;
      }
      FailureIs(sources, luck.copies, |sources|);
      DropBackups();
    }
  }

  /** Old backups are gone before anything is done. */
  lemma {:induction false} SameDestinations(a: seq<Folder>, b: seq<Folder>, luck: Luck)
    requires |a| == |b| && forall k :: 0 <= k < |a| ==> a[k].destination == b[k].destination
    ensures Destinations(a) == Destinations(b) && BackedUp(a, luck) == BackedUp(b, luck)
    ensures AllRename(a, luck) <==> AllRename(b, luck)
  {
    assert Destinations(a) == Destinations(b);
  }
}
