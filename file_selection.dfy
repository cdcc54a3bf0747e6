/** The multiple-selection model behind the file list: a set of selected paths
    and named groups of paths. */
module FileSelection {
  import opened Common

  /** `s.index(x)`: the first position of `x`, None where Python raises
      ValueError. */
  function IndexOf<T(==)>(s: seq<T>, x: T): (r: Option<nat>)
    ensures r.Some? ==> r.value < |s| && s[r.value] == x && forall j :: 0 <= j < r.value ==> s[j] != x
    ensures r.None? <==> x !in s
  {
    if s == [] then None
    else if s[0] == x then Some(0)
    else
      var rest := IndexOf(s[1..], x);
      if rest.None? then None
      else
        assert forall j :: 1 <= j <= rest.value ==> s[j] == s[1..][j - 1];
        Some(rest.value + 1)
  }

  /** Adding a path that is absent, removing one that is present. */
  function Toggle(selected: set<Path>, p: Path): set<Path> {
    if p in selected then selected - {p} else selected + {p}
  }

  /** The `invert_selection` loop: every listed path toggled in turn. */
  function ToggleAll(selected: set<Path>, files: seq<Path>): set<Path> {
    if files == [] then selected else Toggle(ToggleAll(selected, files[..|files| - 1]), files[|files| - 1])
  }

  /** A path ends up selected exactly when it was selected and listed an even
      number of times, or unselected and listed an odd number of times. */
  lemma {:induction false} ToggleAllMembers(selected: set<Path>, files: seq<Path>, x: Path)
    ensures x in ToggleAll(selected, files) <==> (x in selected) != (Count(files, x) % 2 == 1)
  {
    if files != [] {
      ToggleAllMembers(selected, files[..|files| - 1], x);
    }
  }

  /** Inverting twice over the same list restores the selection, whatever the
      list. */
  lemma InvertTwice(selected: set<Path>, files: seq<Path>)
    ensures ToggleAll(ToggleAll(selected, files), files) == selected
  {
    forall x ensures x in ToggleAll(ToggleAll(selected, files), files) <==> x in selected {
      ToggleAllMembers(selected, files, x);
      ToggleAllMembers(ToggleAll(selected, files), files, x);
    }
  }

  lemma {:induction false} CountNoDup(s: seq<Path>, x: Path)
    requires NoDup(s)
    ensures Count(s, x) == if x in s then 1 else 0
  {
    if s != [] {
      var init := s[..|s| - 1];
      assert NoDup(init) by {
        forall i, j | 0 <= i < j < |init| ensures init[i] != init[j] {
          assert init[i] == s[i] && init[j] == s[j];
        }
      }
      CountNoDup(init, x);
      Snoc(s);
      if x == s[|s| - 1] {
        assert x !in init by {
          forall i | 0 <= i < |init| ensures init[i] != x {
            assert init[i] == s[i];
          }
        }
      }
    }
  }

  /** Over a list without repetition, inverting is the symmetric difference:
      listed paths flip, others are untouched. */
  lemma InvertIsSymmetricDifference(selected: set<Path>, files: seq<Path>)
    requires NoDup(files)
    ensures ToggleAll(selected, files) == (selected - Elems(files)) + (Elems(files) - selected)
  {
    forall x ensures x in ToggleAll(selected, files) <==> x in (selected - Elems(files)) + (Elems(files) - selected) {
      ToggleAllMembers(selected, files, x);
      CountNoDup(files, x);
    }
  }

  /** The inclusive index range `select_range` walks: the first occurrences of
      the two endpoints, swapped when the start comes after the end; None when
      either is missing. */
  function RangeBounds(start: Path, end: Path, files: seq<Path>): (r: Option<(nat, nat)>)
    ensures r.Some? ==> r.value.0 <= r.value.1 < |files|
    ensures r.Some? <==> start in files && end in files
    ensures r.Some? ==>
              forall k :: r.value.0 <= k <= r.value.1 ==>
                Between(IndexOf(files, start).value, k, IndexOf(files, end).value)
  {
    match (IndexOf(files, start), IndexOf(files, end))
    case (Some(i), Some(j)) => Some(if i <= j then (i, j) else (j, i))
    case _ => None
  }

  /** What `select_range` adds to the selection. */
  function RangeOf(start: Path, end: Path, files: seq<Path>): set<Path> {
    var b := RangeBounds(start, end, files);
    if b.None? then {} else Elems(files[b.value.0..b.value.1 + 1])
  }

  /** Nothing is added when either endpoint is missing. */
  lemma RangeOfMissing(start: Path, end: Path, files: seq<Path>)
    ensures start !in files || end !in files ==> RangeOf(start, end, files) == {}
    ensures start in files && end in files ==> start in RangeOf(start, end, files) && end in RangeOf(start, end, files)
  {
    if start in files && end in files {
      RangeOfHolds(start, end, files, IndexOf(files, start).value);
      RangeOfHolds(start, end, files, IndexOf(files, end).value);
    }
  }

  /** Every path listed between the first occurrences of the endpoints is in
      the range. */
  lemma RangeOfHolds(start: Path, end: Path, files: seq<Path>, k: nat)
    requires start in files && end in files && k < |files|
    requires Between(IndexOf(files, start).value, k, IndexOf(files, end).value)
    ensures files[k] in RangeOf(start, end, files)
  {
    var b := RangeBounds(start, end, files).value;
    var span := files[b.0..b.1 + 1];
    assert span[k - b.0] == files[k];
  }

  /** Only paths listed between the first occurrences of the endpoints are in
      the range. */
  lemma RangeOfOnly(start: Path, end: Path, files: seq<Path>, x: Path)
    requires x in RangeOf(start, end, files)
    ensures start in files && end in files
    ensures exists k :: 0 <= k < |files| && files[k] == x
                        && Between(IndexOf(files, start).value, k, IndexOf(files, end).value)
  {
    var b := RangeBounds(start, end, files).value;
    var span := files[b.0..b.1 + 1];
    var m :| 0 <= m < |span| && span[m] == x;
    var k := b.0 + m;
    assert files[k] == x;
  }

  /** The range does not depend on which endpoint is given first, and holds
      nothing that is not listed. */
  lemma RangeOfSymmetric(start: Path, end: Path, files: seq<Path>)
    ensures RangeOf(start, end, files) == RangeOf(end, start, files)
    ensures RangeOf(start, end, files) <= Elems(files)
  {
    var b := RangeBounds(start, end, files);
    if b.Some? {
      var span := files[b.value.0..b.value.1 + 1];
      forall x | x in Elems(span) ensures x in Elems(files) {
        var k :| 0 <= k < |span| && span[k] == x;
        assert files[b.value.0 + k] == x;
      }
    }
  }

  predicate Between(i: nat, k: nat, j: nat) {
    (i <= k <= j) || (j <= k <= i)
  }

  class FileSelection {
    var selectedFiles: set<Path>
    var fileGroups: map<string, seq<Path>>
    /** The group names in insertion order, as `dict.keys()` lists them. */
    var groupNames: seq<string>

    ghost predicate Valid()
      reads this
    {
      NoDup(groupNames) && Elems(groupNames) == fileGroups.Keys
    }

    constructor ()
      ensures Valid() && selectedFiles == {} && fileGroups == map[] && groupNames == []
    {
      selectedFiles := {};
      fileGroups := map[];
      groupNames := [];
    }

    method ToggleSelection(p: Path)
      modifies this
      ensures selectedFiles == Toggle(old(selectedFiles), p)
      ensures fileGroups == old(fileGroups) && groupNames == old(groupNames)
    {
      if p in selectedFiles {
        selectedFiles := selectedFiles - {p};
      } else {
        selectedFiles := selectedFiles + {p};
      }
    }

    /** `select_all`: the given files join the selection. */
    method SelectAll(files: seq<Path>)
      modifies this
      ensures selectedFiles == old(selectedFiles) + Elems(files)
      ensures fileGroups == old(fileGroups) && groupNames == old(groupNames)
    {
      selectedFiles := selectedFiles + Elems(files);
    }

    method DeselectAll()
      modifies this
      ensures selectedFiles == {}
      ensures fileGroups == old(fileGroups) && groupNames == old(groupNames)
    {
      selectedFiles := {};
    }

    method SelectRange(start: Path, end: Path, allFiles: seq<Path>)
      modifies this
      ensures selectedFiles == old(selectedFiles) + RangeOf(start, end, allFiles)
      ensures fileGroups == old(fileGroups) && groupNames == old(groupNames)
    {
      var bounds := RangeBounds(start, end, allFiles);
      if bounds.None? {
        return;
      }
      var lo, hi := bounds.value.0, bounds.value.1;
      AddSpan(allFiles, lo, hi);
    }

    /** The loop of `select_range`: every path from index `lo` to `hi`
        inclusive joins the selection. */
    method AddSpan(allFiles: seq<Path>, lo: nat, hi: nat)
      requires lo <= hi < |allFiles|
      modifies this
      ensures selectedFiles == old(selectedFiles) + Elems(allFiles[lo..hi + 1])
      ensures fileGroups == old(fileGroups) && groupNames == old(groupNames)
    {
      var i := lo;
      while i < hi + 1
        invariant lo <= i <= hi + 1
        invariant selectedFiles == old(selectedFiles) + Elems(allFiles[lo..i])
        invariant fileGroups == old(fileGroups) && groupNames == old(groupNames)
      {
        ElemsSliceSnoc(allFiles, lo, i);
        selectedFiles := selectedFiles + {allFiles[i]};
        i := i + 1;
      }
    }

    method InvertSelection(allFiles: seq<Path>)
      modifies this
      ensures selectedFiles == ToggleAll(old(selectedFiles), allFiles)
      ensures fileGroups == old(fileGroups) && groupNames == old(groupNames)
    {
      var i := 0;
      while i < |allFiles|
        invariant 0 <= i <= |allFiles|
        invariant selectedFiles == ToggleAll(old(selectedFiles), allFiles[..i])
        invariant fileGroups == old(fileGroups) && groupNames == old(groupNames)
      {
        assert allFiles[..i + 1][..i] == allFiles[..i];
        var p := allFiles[i];
        if p in selectedFiles {
          selectedFiles := selectedFiles - {p};
        } else {
          selectedFiles := selectedFiles + {p};
        }
        i := i + 1;
      }
      assert allFiles[..i] == allFiles;
    }

    /** `list(self.selected_files)`: the selection without repetition, in the
        set's order. */
    method GetSelectedFiles(setOrder: seq<Path> -> seq<Path>) returns (files: seq<Path>)
      requires IsSetOrder(setOrder)
      ensures NoDup(files) && Elems(files) == selectedFiles
    {
      var listed := SetToSeq(selectedFiles);
      files := setOrder(listed);
    }

    function GetSelectionCount(): (n: nat)
      reads this
      ensures n == |selectedFiles|
    {
      |selectedFiles|
    }

    /** `create_group`: the given files, or the current selection, under the
        name; an existing group of that name is replaced in place. */
    method CreateGroup(name: string, files: Option<seq<Path>>, setOrder: seq<Path> -> seq<Path>)
      returns (r: string)
      requires Valid() && IsSetOrder(setOrder)
      modifies this
      ensures Valid() && r == name && selectedFiles == old(selectedFiles)
      ensures name in fileGroups
      ensures files.Some? ==> fileGroups == old(fileGroups)[name := files.value]
      ensures files.None? ==> fileGroups.Keys == old(fileGroups).Keys + {name}
                              && Elems(fileGroups[name]) == selectedFiles && NoDup(fileGroups[name])
                              && forall g :: g in old(fileGroups) && g != name ==> fileGroups[g] == old(fileGroups)[g]
      ensures name in old(fileGroups) ==> groupNames == old(groupNames)
      ensures name !in old(fileGroups) ==> groupNames == old(groupNames) + [name]
    {
      var members;
      if files.None? {
        members := GetSelectedFiles(setOrder);
      } else {
        members := files.value;
      }
      if name !in fileGroups {
        NoDupSnoc(groupNames, name);
        ElemsSnoc(groupNames, name);
        groupNames := groupNames + [name];
      }
      fileGroups := fileGroups[name := members];
      return name;
    }

    /** `get_group`: an unknown name gives the empty list. */
    function GetGroup(name: string): (files: seq<Path>)
      reads this
      ensures name in fileGroups ==> files == fileGroups[name]
      ensures name !in fileGroups ==> files == []
    {
      if name in fileGroups then fileGroups[name] else []
    }

    /** `delete_group`: an unknown name changes nothing. */
    method DeleteGroup(name: string)
      requires Valid()
      modifies this
      ensures Valid() && selectedFiles == old(selectedFiles)
      ensures fileGroups == old(fileGroups) - {name}
      ensures name !in old(fileGroups) ==> groupNames == old(groupNames)
      ensures name in old(fileGroups) ==> groupNames == RemoveName(old(groupNames), name)
    {
      if name in fileGroups {
        fileGroups := fileGroups - {name};
        groupNames := RemoveName(groupNames, name);
      }
    }

    /** `list(self.file_groups.keys())`. */
    function GetAllGroups(): (names: seq<string>)
      reads this
      requires Valid()
      ensures NoDup(names) && Elems(names) == fileGroups.Keys
    {
      groupNames
    }
  }

  /** The names without `name`, in the same order. */
  function RemoveName(names: seq<string>, name: string): (r: seq<string>)
    requires NoDup(names)
    ensures NoDup(r) && Elems(r) == Elems(names) - {name}
  {
    if names == [] then []
    else
      var rest := RemoveName(names[1..], name);
      assert NoDup(names[1..]) by {
        forall i, j | 0 <= i < j < |names[1..]| ensures names[1..][i] != names[1..][j] {
          assert names[1..][i] == names[i + 1] && names[1..][j] == names[j + 1];
        }
      }
      assert Elems(names) == {names[0]} + Elems(names[1..]) by {
        assert names == [names[0]] + names[1..];
      }
      if names[0] == name then
        assert name !in names[1..] by {
          forall i | 0 <= i < |names[1..]| ensures names[1..][i] != name {
            assert names[1..][i] == names[i + 1];
          }
        }
        rest
      else
        assert names[0] !in Elems(names[1..]) by {
          forall i | 0 <= i < |names[1..]| ensures names[1..][i] != names[0] {
            assert names[1..][i] == names[i + 1];
          }
        }
        assert names[0] !in Elems(rest);
        assert NoDup([names[0]] + rest) by {
          var t := [names[0]] + rest;
          forall i, j | 0 <= i < j < |t| ensures t[i] != t[j] {
            assert t[j] == rest[j - 1];
            if i > 0 { assert t[i] == rest[i - 1]; } else { assert t[j] in Elems(rest); }
          }
        }
        assert Elems([names[0]] + rest) == {names[0]} + Elems(rest);
        [names[0]] + rest
  }

  /** Removing a name keeps the others in their order: the list without its one
      occurrence of the name, or the list unchanged when the name is absent. */
  lemma {:induction false} RemoveNameSpec(names: seq<string>, name: string)
    requires NoDup(names)
    ensures name !in names ==> RemoveName(names, name) == names
    ensures forall k :: 0 <= k < |names| && names[k] == name ==> RemoveName(names, name) == names[..k] + names[k + 1..]
  {
    if names != [] {
      var tail := names[1..];
      assert NoDup(tail) by {
        forall i, j | 0 <= i < j < |tail| ensures tail[i] != tail[j] {
          assert tail[i] == names[i + 1] && tail[j] == names[j + 1];
        }
      }
      RemoveNameSpec(tail, name);
      assert names == [names[0]] + tail;
      if names[0] == name {
        assert name !in tail by {
          forall i | 0 <= i < |tail| ensures tail[i] != name {
            assert tail[i] == names[i + 1];
          }
        }
        forall k | 0 <= k < |names| && names[k] == name ensures k == 0 {
        }
        assert names[..0] + names[1..] == tail;
      } else {
        forall k | 0 <= k < |names| && names[k] == name
          ensures RemoveName(names, name) == names[..k] + names[k + 1..]
        {
          assert tail[k - 1] == name;
          assert [names[0]] + (tail[..k - 1] + tail[k..]) == names[..k] + names[k + 1..];
        }
      }
    }
  }

  lemma ElemsSliceSnoc(s: seq<Path>, lo: nat, i: nat)
    requires lo <= i < |s|
    ensures Elems(s[lo..i + 1]) == Elems(s[lo..i]) + {s[i]}
  {
    assert s[lo..i + 1] == s[lo..i] + [s[i]];
  }
}
