/** The merge that LoadStates performs over the configured state files
    (internal/bot/bot.go:71-99); the stateful loop itself is Bot.LoadStates. */
module Store {
  import opened Types

  /** The outcome of resolving, reading and decoding one state file. */
  datatype StateFile = Parsed(states: map<string, State>) | Unreadable

  /** The index of the first file that cannot be loaded, or the number of files. */
  function FirstFailure(files: seq<StateFile>): (k: nat)
    ensures k <= |files|
    ensures forall i :: 0 <= i < k ==> files[i].Parsed?
    ensures k < |files| ==> files[k].Unreadable?
    decreases |files|
  {
    if files == [] || files[0].Unreadable? then 0
    else 1 + FirstFailure(files[1..])
  }

  predicate AllParsed(files: seq<StateFile>) {
    forall i :: 0 <= i < |files| ==> files[i].Parsed?
  }

  /** The files merged left to right; a later file's definition replaces an earlier one. */
  function Merge(files: seq<StateFile>): map<string, State>
    requires AllParsed(files)
    decreases |files|
  {
    if files == [] then map[]
    else Merge(files[..|files| - 1]) + files[|files| - 1].states
  }

  /** A state is present after the merge exactly when some file defines it. */
  lemma {:induction false} MergeKeys(files: seq<StateFile>, key: string)
    requires AllParsed(files)
    ensures key in Merge(files) <==> exists i :: 0 <= i < |files| && key in files[i].states
    decreases |files|
  {
    if files != [] {
      var n := |files| - 1;
      var init := files[..n];
      MergeKeys(init, key);
      if exists i :: 0 <= i < n && key in init[i].states {
        var i :| 0 <= i < n && key in init[i].states;
        assert files[i] == init[i];
      }
      if exists i :: 0 <= i < |files| && key in files[i].states {
        var i :| 0 <= i < |files| && key in files[i].states;
        if i < n { assert init[i] == files[i]; }
      }
    }
  }

  /** The merged definition of a state is that of the last file that defines it. */
  lemma {:induction false} MergeLastWriter(files: seq<StateFile>, key: string, i: nat)
    requires AllParsed(files)
    requires i < |files| && key in files[i].states
    requires forall j :: i < j < |files| ==> key !in files[j].states
    ensures key in Merge(files) && Merge(files)[key] == files[i].states[key]
    decreases |files|
  {
    var n := |files| - 1;
    if i < n {
      var init := files[..n];
      assert init[i] == files[i];
      MergeLastWriter(init, key, i);
    }
  }

  /** Two files defining the same state: the second definition wins. */
  lemma SecondFileWins(first: map<string, State>, second: map<string, State>, key: string)
    requires key in second
    ensures key in Merge([Parsed(first), Parsed(second)])
    ensures Merge([Parsed(first), Parsed(second)])[key] == second[key]
  {
    MergeLastWriter([Parsed(first), Parsed(second)], key, 1);
  }
}
