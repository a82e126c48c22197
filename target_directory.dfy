/** The target directory of the scaffolder (src/index.ts): when it counts as empty,
    how `emptyDir` clears it, the overwrite question and the create / clear / leave
    decision taken once the questions are answered. A directory is represented by
    the names of its top-level entries; a missing directory by `None`. */
module TargetDirectory {
  import opened JsText

  /** `isEmpty(path)` on the directory's listing: no entry, or only `.git`. */
  function IsEmpty(files: seq<string>): (empty: bool)
    ensures empty ==> forall f :: f in files ==> f == ".git"
  {
    |files| == 0 || (|files| == 1 && files[0] == ".git")
  }

  /** On a listing that names each entry once, `isEmpty` holds exactly when every
      entry is `.git`. */
  lemma IsEmptyOnlyGit(files: seq<string>)
    requires Distinct(files)
    ensures IsEmpty(files) <==> forall f :: f in files ==> f == ".git"
  {
    if |files| >= 2 {
      var f := if files[0] != ".git" then files[0] else files[1];
      assert f in files && f != ".git";
    } else if |files| == 1 {
      assert files[0] in files;
    }
  }

  /** The entries `emptyDir` keeps: those named exactly `.git`, in order. */
  function KeepGit(files: seq<string>): (kept: seq<string>)
    ensures |kept| <= |files|
    ensures forall f :: f in kept <==> f in files && f == ".git"
  {
    if files == [] then []
    else if files[0] == ".git" then [files[0]] + KeepGit(files[1..])
    else KeepGit(files[1..])
  }

  /** Filtering distributes over concatenation. */
  lemma {:induction false} KeepGitAppend(a: seq<string>, b: seq<string>)
    ensures KeepGit(a + b) == KeepGit(a) + KeepGit(b)
    decreases |a|
  {
    if a != [] {
      assert (a + b)[0] == a[0] && (a + b)[1..] == a[1..] + b;
      KeepGitAppend(a[1..], b);
      if a[0] == ".git" {
        assert [a[0]] + (KeepGit(a[1..]) + KeepGit(b)) == [a[0]] + KeepGit(a[1..]) + KeepGit(b);
      }
    } else {
      assert a + b == b;
    }
  }

  /** A listing without `.git` keeps nothing; a listing holding `.git` once keeps only it. */
  lemma {:induction false} KeepGitValue(files: seq<string>)
    requires Distinct(files)
    ensures ".git" !in files ==> KeepGit(files) == []
    ensures ".git" in files ==> KeepGit(files) == [".git"]
    decreases |files|
  {
    if files != [] {
      assert Distinct(files[1..]) by {
        forall i, j | 0 <= i < j < |files[1..]| ensures files[1..][i] != files[1..][j] {
          assert files[1..][i] == files[i + 1] && files[1..][j] == files[j + 1];
        }
      }
      KeepGitValue(files[1..]);
      if files[0] == ".git" {
        assert ".git" !in files[1..] by {
          forall i | 0 <= i < |files[1..]| ensures files[1..][i] != ".git" {
            assert files[1..][i] == files[i + 1];
          }
        }
      }
    }
  }

  /** After `emptyDir`, the directory is empty in the sense of `isEmpty`. */
  lemma EmptyDirLeavesEmpty(files: seq<string>)
    requires Distinct(files)
    ensures IsEmpty(KeepGit(files))
  {
    KeepGitValue(files);
  }

  /** `emptyDir` on a directory that is already empty changes nothing. */
  lemma EmptyDirOnEmpty(files: seq<string>)
    requires IsEmpty(files)
    ensures KeepGit(files) == files
  {
    if files != [] {
      assert files[1..] == [];
    }
  }

  /** `fs.rmSync(path.resolve(dir, file), { recursive: true, force: true })` on the
      listing: every entry with that name goes. */
  function RemoveEntry(files: seq<string>, file: string): (r: seq<string>)
    ensures forall f :: f in r <==> f in files && f != file
  {
    if files == [] then []
    else if files[0] == file then RemoveEntry(files[1..], file)
    else [files[0]] + RemoveEntry(files[1..], file)
  }

  /** Removing a name that does not occur changes nothing. */
  lemma {:induction false} RemoveAbsent(files: seq<string>, file: string)
    requires file !in files
    ensures RemoveEntry(files, file) == files
    decreases |files|
  {
    if files != [] {
      assert files[1..] + [] == files[1..];
      assert file !in files[1..] by {
        forall i | 0 <= i < |files[1..]| ensures files[1..][i] != file {
          assert files[1..][i] == files[i + 1];
        }
      }
      RemoveAbsent(files[1..], file);
      assert files == [files[0]] + files[1..];
    }
  }

  /** Removing the head of `kept + [file] + rest`, when `file` is in neither part,
      leaves `kept + rest`. */
  lemma {:induction false} RemoveMiddle(kept: seq<string>, file: string, rest: seq<string>)
    requires file !in kept && file !in rest
    ensures RemoveEntry(kept + [file] + rest, file) == kept + rest
    decreases |kept|
  {
    if kept == [] {
      assert [file] + rest == [file] + rest;
      assert ([] + [file] + rest)[1..] == rest;
      RemoveAbsent(rest, file);
    } else {
      assert (kept + [file] + rest)[1..] == kept[1..] + [file] + rest;
      assert file !in kept[1..] by {
        forall i | 0 <= i < |kept[1..]| ensures kept[1..][i] != file {
          assert kept[1..][i] == kept[i + 1];
        }
      }
      RemoveMiddle(kept[1..], file, rest);
      assert kept + rest == [kept[0]] + (kept[1..] + rest);
    }
  }

  /** The listing part-way through `emptyDir`'s loop, after the first `i` entries of
      the original listing `files` have been visited. */
  function Pending(files: seq<string>, i: nat): seq<string>
    requires i <= |files|
  {
    KeepGit(files[..i]) + files[i..]
  }

  /** Before the loop the listing is untouched; after it only `.git` is left. */
  lemma PendingEnds(files: seq<string>)
    ensures Pending(files, 0) == files
    ensures Pending(files, |files|) == KeepGit(files)
  {
    assert files[..0] == [] && files[0..] == files;
    assert files[..|files|] == files && files[|files|..] == [];
  }

  /** One turn of `emptyDir`'s loop: `.git` is skipped, any other entry removed. */
  lemma PendingStep(files: seq<string>, i: nat)
    requires Distinct(files) && i < |files|
    ensures files[i] == ".git" ==> Pending(files, i + 1) == Pending(files, i)
    ensures files[i] != ".git" ==> Pending(files, i + 1) == RemoveEntry(Pending(files, i), files[i])
  {
    var file := files[i];
    KeepGitAppend(files[..i], [file]);
    assert files[..i + 1] == files[..i] + [file];
    assert files[i..] == [file] + files[i + 1..];
    if file != ".git" {
      assert forall k :: i + 1 <= k < |files| ==> files[k] != file;
      assert file !in files[i + 1..];
      assert KeepGit([file]) == [] by {
        assert [file][1..] == [];
      }
      assert Pending(files, i) == KeepGit(files[..i]) + [file] + files[i + 1..];
      RemoveMiddle(KeepGit(files[..i]), file, files[i + 1..]);
    } else {
      assert KeepGit([file]) == [file] by {
        assert [file][1..] == [];
      }
    }
  }

  /** A second update of the same key overrides the first. */
  lemma UpdateTwice<K, V>(m: map<K, V>, k: K, a: V, b: V)
    ensures m[k := a][k := b] == m[k := b]
  {
  }

  /** Replacing one listing by a listing that names each entry once keeps every listing
      that way. */
  lemma DistinctUpdate(dirs: map<string, seq<string>>, dir: string, files: seq<string>,
                       updated: map<string, seq<string>>)
    requires forall d :: d in dirs ==> Distinct(dirs[d])
    requires Distinct(files) && updated == dirs[dir := files]
    ensures forall d :: d in updated ==> Distinct(updated[d])
  {
  }

  /** The filesystem as the scaffolder sees it: each existing directory's listing. */
  class FileSystem {
    var dirs: map<string, seq<string>>

    /** Listings name each entry once. */
    ghost predicate Valid()
      reads this
    {
      forall d :: d in dirs ==> Distinct(dirs[d])
    }

    constructor (dirs: map<string, seq<string>>)
      requires forall d :: d in dirs ==> Distinct(dirs[d])
      ensures Valid()
      ensures this.dirs == dirs
    {
      this.dirs := dirs;
    }

    /** `fs.existsSync(dir) ? fs.readdirSync(dir) : undefined` */
    function Listing(dir: string): (listing: Option<seq<string>>)
      reads this
      ensures listing.Some? <==> dir in dirs
      ensures listing.Some? ==> listing.value == dirs[dir]
    {
      if dir in dirs then Some(dirs[dir]) else None
    }

    /** `emptyDir(dir)` (src/index.ts:415-426): a missing directory is left alone;
        otherwise every entry of the listing read at the start is removed, except
        `.git`. Nothing else on the filesystem changes. */
    method EmptyDir(dir: string)
      requires Valid()
      modifies this
      ensures Valid()
      ensures dir !in old(dirs) ==> dirs == old(dirs)
      ensures dir in old(dirs) ==> dirs == old(dirs)[dir := KeepGit(old(dirs)[dir])]
    {
      if dir !in dirs {
        return;
      }
      var files := dirs[dir];
      PendingEnds(files);
      var i := 0;
      while i < |files|
        invariant 0 <= i <= |files|
        invariant dirs == old(dirs)[dir := Pending(files, i)]
      {
        PendingStep(files, i);
        if files[i] != ".git" {
          var next := RemoveEntry(dirs[dir], files[i]);
          assert next == Pending(files, i + 1);
          UpdateTwice(old(dirs), dir, Pending(files, i), next);
          dirs := dirs[dir := next];
        }
        i := i + 1;
      }
      KeepGitValue(files);
      DistinctUpdate(old(dirs), dir, KeepGit(files), dirs);
    }

    /** `fs.mkdirSync(dir, { recursive: true })` when `dir` does not exist: it is
        created empty. Parent directories are not modelled. */
    method MakeDir(dir: string)
      requires Valid()
      modifies this
      ensures Valid()
      ensures dir !in old(dirs) ==> dirs == old(dirs)[dir := []]
      ensures dir in old(dirs) ==> dirs == old(dirs)
    {
      if dir !in dirs {
        dirs := dirs[dir := []];
      }
    }
  }

  /** A prompt's outcome: an answer, or a cancellation (which makes the scaffolder's
      `onCancel` throw and `init` return). */
  datatype Reply<T> = Answer(value: T) | Cancel

  /** What the overwrite question and its checker (src/index.ts:235, 243-249) amount to. */
  datatype Gate =
    | Skipped     // not asked: the target is missing or empty; `overwrite` is undefined
    | Confirmed   // asked and answered yes
    | Declined    // asked and answered no: the checker throws "Operation cancelled"
    | Cancelled   // asked and cancelled: `onCancel` throws

  /** The overwrite question is asked only when the target exists and is not empty. */
  function OverwriteGate(listing: Option<seq<string>>, reply: Reply<bool>): (g: Gate)
    ensures g == Skipped <==> listing.None? || IsEmpty(listing.value)
    ensures g == Confirmed <==> listing.Some? && !IsEmpty(listing.value) && reply == Answer(true)
    ensures g == Declined <==> listing.Some? && !IsEmpty(listing.value) && reply == Answer(false)
  {
    if listing.None? || IsEmpty(listing.value) then Skipped
    else match reply
      case Answer(true) => Confirmed
      case Answer(false) => Declined
      case Cancel => Cancelled
  }

  /** Whether the questions go on after the gate; a declined or cancelled gate ends `init`. */
  predicate Proceeds(g: Gate)
  {
    g == Skipped || g == Confirmed
  }

  /** The value of `overwrite` in the answers after a gate that proceeds. */
  function OverwriteAnswer(g: Gate): Option<bool>
  {
    if g == Confirmed then Some(true) else None
  }

  datatype Action = Clear | Create | Leave

  /** The directory step of `init` (src/index.ts:330-337): clear when `overwrite` is
      true, else create a missing root, else leave it alone. */
  function DirectoryAction(overwrite: Option<bool>, present: bool): (a: Action)
    ensures a == Clear <==> overwrite == Some(true)
    ensures a == Create <==> overwrite != Some(true) && !present
  {
    if overwrite == Some(true) then Clear
    else if !present then Create
    else Leave
  }

  /** The listing of the target after the directory step. */
  function ApplyAction(listing: Option<seq<string>>, a: Action): Option<seq<string>>
  {
    match a
    case Clear => if listing.Some? then Some(KeepGit(listing.value)) else None
    case Create => if listing.None? then Some([]) else listing
    case Leave => listing
  }

  /** The four outcomes of the target-directory state machine: a missing target is
      created, an empty one reused, a non-empty one cleared when the user confirms, and
      otherwise `init` stops before touching it. Whenever it goes on, the target exists
      and is empty afterwards. */
  lemma TargetOutcomes(listing: Option<seq<string>>, reply: Reply<bool>)
    requires listing.Some? ==> Distinct(listing.value)
    ensures var g := OverwriteGate(listing, reply);
            var a := DirectoryAction(OverwriteAnswer(g), listing.Some?);
            && (listing.None? ==> g == Skipped && a == Create)
            && (listing.Some? && IsEmpty(listing.value) ==> g == Skipped && a == Leave)
            && (listing.Some? && !IsEmpty(listing.value) ==>
                  (Proceeds(g) <==> reply == Answer(true)) && (Proceeds(g) ==> a == Clear))
            && (Proceeds(g) ==> ApplyAction(listing, a).Some? && IsEmpty(ApplyAction(listing, a).value))
  {
    if listing.Some? {
      EmptyDirLeavesEmpty(listing.value);
    }
  }
}
