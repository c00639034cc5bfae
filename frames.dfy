/**
 * Helpers of the environment and agent frames: the keyboard map a game is
 * played with (`EnvironmentFrame.pre_process`) and the check, shared by
 * both frames, that decides whether a configuration file may be created or
 * renamed (`can_update_be_performed`).
 */
module Frames {
  import opened Wrappers

  // ---------------------------------------------------------------------
  // Keyboard map (`EnvironmentFrame.pre_process`)
  // ---------------------------------------------------------------------

  /** A key code, or `None` for "no key pressed". */
  type Key = Option<int>

  /** A key of the environment's map: one key, or a tuple of keys pressed together. */
  datatype KeySpec = Single(key: Key) | Combo(keys: seq<Key>)

  /** The keys an entry names. */
  function KeysOf(spec: KeySpec): set<Key>
  {
    match spec
    case Single(k) => {k}
    case Combo(ks) => set k | k in ks
  }

  /** `m` with each key of `ks`, in order, bound to `v`. */
  function BindAll(m: map<Key, int>, ks: seq<Key>, v: int): (r: map<Key, int>)
    ensures forall k :: k in r <==> k in m || k in ks
    ensures forall k :: k in r ==> r[k] == if k in ks then v else m[k]
  {
    if |ks| == 0 then m
    else BindAll(m, ks[..|ks| - 1], v)[ks[|ks| - 1] := v]
  }

  /** One entry applied to the map built so far: every key it names now maps to its action. */
  function Bind(m: map<Key, int>, entry: (KeySpec, int)): map<Key, int>
  {
    match entry.0
    case Single(k) => m[k := entry.1]
    case Combo(ks) => BindAll(m, ks, entry.1)
  }

  /** The entries applied in order, each overriding the keys it names. */
  function Merged(entries: seq<(KeySpec, int)>): map<Key, int>
  {
    if |entries| == 0 then map[]
    else Bind(Merged(entries[..|entries| - 1]), entries[|entries| - 1])
  }

  /**
   * `pre_process`: a plain key keeps its action; every element of a tuple
   * key, `None` included, gets the tuple's action; later entries overwrite
   * earlier ones.
   */
  method PreProcess(entries: seq<(KeySpec, int)>) returns (tmp: map<Key, int>)
    ensures tmp == Merged(entries)
  {
    tmp := map[];
    var i := 0;
    while i < |entries|
      invariant 0 <= i <= |entries|
      invariant tmp == Merged(entries[..i])
    {
      var (keys, value) := entries[i];
      ghost var before := tmp;
      match keys {
        case Combo(ks) =>
          var j := 0;
          while j < |ks|
            invariant 0 <= j <= |ks|
            invariant tmp == BindAll(before, ks[..j], value)
          {
            if ks[j].None? {
              tmp := tmp[None := value];
            } else {
              tmp := tmp[ks[j] := value];
            }
            assert ks[..j + 1][..j] == ks[..j];
            j := j + 1;
          }
          assert ks[..j] == ks;
        case Single(k) =>
          tmp := tmp[k := value];
      }
      assert entries[..i + 1][..i] == entries[..i];
      i := i + 1;
    }
    assert entries[..i] == entries;
  }

  /** The merged map binds exactly the keys some entry names. */
  lemma {:induction false} MergedKeys(entries: seq<(KeySpec, int)>, k: Key)
    ensures k in Merged(entries) <==> exists i :: 0 <= i < |entries| && k in KeysOf(entries[i].0)
    decreases |entries|
  {
    if |entries| > 0 {
      var prefix := entries[..|entries| - 1];
      MergedKeys(prefix, k);
      if k in Merged(entries) && k !in KeysOf(entries[|entries| - 1].0) {
        var i :| 0 <= i < |prefix| && k in KeysOf(prefix[i].0);
        assert entries[i] == prefix[i];
      }
      if exists i :: 0 <= i < |entries| && k in KeysOf(entries[i].0) {
        var i :| 0 <= i < |entries| && k in KeysOf(entries[i].0);
        if i < |prefix| {
          assert prefix[i] == entries[i];
        }
      }
    }
  }

  /** A key gets the action of the last entry naming it. */
  lemma {:induction false} MergedLastWins(entries: seq<(KeySpec, int)>, i: nat, k: Key)
    requires i < |entries| && k in KeysOf(entries[i].0)
    requires forall j :: i < j < |entries| ==> k !in KeysOf(entries[j].0)
    ensures k in Merged(entries) && Merged(entries)[k] == entries[i].1
    decreases |entries|
  {
    var prefix := entries[..|entries| - 1];
    if i < |entries| - 1 {
      assert prefix[i] == entries[i];
      MergedLastWins(prefix, i, k);
    }
  }

  // ---------------------------------------------------------------------
  // File names (`can_update_be_performed`)
  // ---------------------------------------------------------------------

  /** `os.path.basename`: what follows the last `/` (all of the path when it has none). */
  function Basename(path: string): (r: string)
    ensures |r| <= |path| && r == path[|path| - |r|..]
    ensures '/' !in r
    ensures |r| < |path| ==> path[|path| - |r| - 1] == '/'
  {
    if |path| == 0 || path[|path| - 1] == '/' then []
    else Basename(path[..|path| - 1]) + [path[|path| - 1]]
  }

  /**
   * The check on the names in the directory: creating needs a free target;
   * updating needs the source and, when the name changes, a free target.
   * A successful update removes the source. The result is the new set of
   * names and whether the update may go ahead.
   */
  function UpdateEffect(names: set<string>, source: string, target: string, mustBeCreated: bool): (set<string>, bool)
  {
    if mustBeCreated && target in names then (names, false)
    else if !mustBeCreated && source !in names then (names, false)
    else if !mustBeCreated && source != target && target in names then (names, false)
    else if !mustBeCreated then (names - {source}, true)
    else (names, true)
  }

  /** Creation is refused, and nothing changes, when the target name exists; otherwise it is allowed and changes nothing. */
  lemma CreationDecision(names: set<string>, source: string, target: string)
    ensures var (after, ok) := UpdateEffect(names, source, target, true);
      after == names && (ok <==> target !in names)
  {
  }

  /** An update is allowed exactly when the source exists and the target is the source or is free; it then removes the source. */
  lemma UpdateDecision(names: set<string>, source: string, target: string)
    ensures var (after, ok) := UpdateEffect(names, source, target, false);
      (ok <==> source in names && (source == target || target !in names))
      && (ok ==> after == names - {source}) && (!ok ==> after == names)
  {
  }

  /** Whenever the check passes, the target name is free afterwards, so the caller can write it. */
  lemma ApprovedTargetIsFree(names: set<string>, source: string, target: string, mustBeCreated: bool)
    requires UpdateEffect(names, source, target, mustBeCreated).1
    ensures target !in UpdateEffect(names, source, target, mustBeCreated).0
    ensures UpdateEffect(names, source, target, mustBeCreated).0 <= names
  {
  }

  /** A directory of configuration files, as the set of its entries' names. */
  class Directory {
    var names: set<string>

    constructor (names: set<string>)
      ensures this.names == names
    {
      this.names := names;
    }

    /**
     * `can_update_be_performed` of both the environment and the agent frame:
     * the files are compared by base name, and a successful update deletes
     * the source file.
     */
    method CanUpdateBePerformed(sourceFile: string, targetFile: string, mustBeCreated: bool) returns (ok: bool)
      modifies this
      ensures (names, ok) == UpdateEffect(old(names), Basename(sourceFile), Basename(targetFile), mustBeCreated)
    {
      var target := Basename(targetFile);
      var source := Basename(sourceFile);
      if mustBeCreated && target in names {
        return false;
      }
      if !mustBeCreated {
        if source !in names {
          return false;
        }
        if source != target && target in names {
          return false;
        }
        names := names - {source};
      }
      return true;
    }
  }
}
