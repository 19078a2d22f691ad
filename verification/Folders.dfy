/** Folders store the path of ids above them; the path tells ancestry. */
module Folders {
  import opened Wrappers
  import opened Paths

  /** `serial` is the order of creation. */
  datatype Folder = Folder(name: string, owner: string, parent: Option<string>, path: string, serial: nat)

  type Table = map<string, Folder>

  /** How creation leaves the table: a folder's path is its parent's, followed by the
      parent's id, and its parent is an older folder of the same owner. */
  ghost predicate WellFormed(t: Table) {
    (forall id | id in t :: id != "" && '/' !in id)
    && (forall id | id in t && t[id].parent.None? :: t[id].path == "/")
    && forall id | id in t && t[id].parent.Some? ::
         var p := t[id].parent.value;
         p in t && t[p].serial < t[id].serial && t[p].owner == t[id].owner && t[id].path == t[p].path + p + "/"
  }

  ghost predicate Numbered(t: Table, next: nat) { forall id | id in t :: t[id].serial < next }

  /** Some chain of parents leads from f to g. */
  ghost predicate Ancestor(t: Table, g: string, f: string)
    requires WellFormed(t) && f in t
    decreases t[f].serial
  {
    t[f].parent.Some? && (t[f].parent.value == g || Ancestor(t, g, t[f].parent.value))
  }

  /** The ids above a folder, from the root down. */
  ghost function Above(t: Table, f: string): seq<string>
    requires WellFormed(t) && f in t
    decreases t[f].serial
  {
    if t[f].parent.None? then [] else Above(t, t[f].parent.value) + [t[f].parent.value]
  }

  lemma {:induction false} PathIsAbove(t: Table, f: string)
    requires WellFormed(t) && f in t
    ensures Plain(Above(t, f)) && t[f].path == "/" + Joined(Above(t, f))
    decreases t[f].serial
  {
    if t[f].parent.Some? {
      var p := t[f].parent.value;
      PathIsAbove(t, p);
      OneMoreId("/", Above(t, p), p);
    }
  }

  /** A folder's own list, with it, begins the list of exactly those it is above. */
  lemma {:induction false} AboveIsAncestry(t: Table, g: string, f: string)
    requires WellFormed(t) && f in t && g in t
    ensures Ancestor(t, g, f) <==> Above(t, g) + [g] <= Above(t, f)
    decreases t[f].serial
  {
    var all := Above(t, g) + [g];
    if t[f].parent.Some? {
      var p := t[f].parent.value;
      AboveIsAncestry(t, g, p);
      var longer := Above(t, p) + [p];
      if all <= longer && !(all <= Above(t, p)) {
        assert |all| == |longer| && all == longer;
        assert all[|all| - 1] == g && longer[|longer| - 1] == p;
      }
    }
  }

  /** g is a proper ancestor of f exactly when g's path with g's id begins f's path. */
  lemma PathTellsAncestry(t: Table, g: string, f: string)
    requires WellFormed(t) && f in t && g in t
    ensures Ancestor(t, g, f) <==> t[g].path + g + "/" <= t[f].path
  {
    hide Joined, Above, Ancestor, Plain;
    var all := Above(t, g) + [g];
    PathIsAbove(t, g);
    PathIsAbove(t, f);
    AboveIsAncestry(t, g, f);
    PathAndId(t, g);
    PrefixAfter("/", Joined(all), Joined(Above(t, f)));
    JoinedPrefix(all, Above(t, f));
  }

  lemma PathAndId(t: Table, g: string)
    requires WellFormed(t) && g in t
    ensures var all := Above(t, g) + [g]; Plain(all) && t[g].path + g + "/" == "/" + Joined(all)
  {
    hide Joined;
    PathIsAbove(t, g);
    OneMoreId("/", Above(t, g), g);
  }

  class StorageService {
    var folders: Table
    var next: nat

    constructor ()
      ensures Valid() && folders == map[]
    {
      folders, next := map[], 0;
    }

    ghost predicate Valid()
      reads this
    {
      WellFormed(folders) && Numbered(folders, next)
    }

    /** The generated id is a parameter: new, and without slashes. `None` when the
        owner has no such parent folder. */
    method CreateFolder(owner: string, name: string, parent: Option<string>, id: string)
      returns (created: Option<Folder>)
      requires Valid() && id != "" && '/' !in id && id !in folders
      modifies this
      ensures Valid()
      ensures created.None? <==> parent.Some? && parent.value != ""
                                 && !(parent.value in old(folders) && old(folders)[parent.value].owner == owner)
      ensures created.None? ==> folders == old(folders)
      ensures created.Some? ==>
                folders == old(folders)[id := created.value] && created.value.name == name
                  && created.value.owner == owner
                                && created.value.parent == (if parent == Some("") then None else parent)
    {
      var path := "/";
      var above := None;
      if parent.Some? && parent.value != "" {
        if parent.value !in folders || folders[parent.value].owner != owner {
          return None;
        }
        path := folders[parent.value].path + parent.value + "/";
        above := parent;
      }
      var folder := Folder(name, owner, above, path, next);
      folders, next := folders[id := folder], next + 1;
      created := Some(folder);
    }
  }
}
