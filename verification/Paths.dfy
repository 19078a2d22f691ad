/** Ids between slashes. */
module Paths {
  /** The part of `s` before its first slash. */
  function UpToSlash(s: string): string {
    if s == "" || s[0] == '/' then "" else [s[0]] + UpToSlash(s[1..])
  }

  lemma {:induction false} ReadsBack(id: string, rest: string)
    requires '/' !in id
    ensures UpToSlash(id + "/" + rest) == id
  {
    if id != "" {
      var s := id + "/" + rest;
      assert s[0] == id[0] && s[1..] == id[1..] + "/" + rest;
      ReadsBack(id[1..], rest);
    }
  }

  /** Ids, each followed by a slash. */
  function Joined(ids: seq<string>): string {
    if ids == [] then "" else ids[0] + "/" + Joined(ids[1..])
  }

  predicate Plain(ids: seq<string>) { forall i | 0 <= i < |ids| :: '/' !in ids[i] }

  lemma {:induction false} JoinedConcat(a: seq<string>, b: seq<string>)
    ensures Joined(a + b) == Joined(a) + Joined(b)
  {
    if a == [] {
      assert a + b == b;
    } else {
      assert (a + b)[1..] == a[1..] + b;
      JoinedConcat(a[1..], b);
    }
  }

  lemma PrefixAfter(head: string, a: string, b: string)
    ensures head + a <= head + b <==> a <= b
  {
    if head + a <= head + b {
      assert (head + b)[..|head + a|] == head + a;
      assert b[..|a|] == (head + b)[|head|..|head + a|] == (head + a)[|head|..] == a;
    }
    if a <= b {
      assert b == a + b[|a|..];
      assert head + b == head + a + b[|a|..];
    }
  }

  /** Joined texts are prefixes of each other exactly when the lists of ids are. */
  lemma {:induction false} JoinedPrefix(a: seq<string>, b: seq<string>)
    requires Plain(a) && Plain(b)
    ensures Joined(a) <= Joined(b) <==> a <= b
  {
    if a != [] && b != [] {
      if a[0] == b[0] {
        PrefixAfter(a[0] + "/", Joined(a[1..]), Joined(b[1..]));
        JoinedPrefix(a[1..], b[1..]);
        assert a <= b <==> a[1..] <= b[1..] by {
          assert a == [a[0]] + a[1..] && b == [b[0]] + b[1..];
        }
      } else {
        FirstDiffers(a, b);
      }
    }
  }

  lemma FirstRead(ids: seq<string>, rest: string)
    requires ids != [] && '/' !in ids[0]
    ensures UpToSlash(Joined(ids) + rest) == ids[0]
  {
    hide UpToSlash;
    var more := Joined(ids[1..]);
    ReadsBack(ids[0], more + rest);
    assert Joined(ids) + rest == ids[0] + "/" + (more + rest);
  }

  lemma PrefixRead(a: seq<string>, b: seq<string>)
    requires a != [] && '/' !in a[0]
    ensures Joined(a) <= Joined(b) ==> UpToSlash(Joined(b)) == a[0]
  {
    hide Joined, UpToSlash;
    if Joined(a) <= Joined(b) {
      var rest := Joined(b)[|Joined(a)|..];
      FirstRead(a, rest);
      assert Joined(b) == Joined(a) + rest;
    }
  }

  lemma FirstDiffers(a: seq<string>, b: seq<string>)
    requires a != [] && b != [] && '/' !in a[0] && '/' !in b[0] && a[0] != b[0]
    ensures !(Joined(a) <= Joined(b))
  {
    PrefixRead(a, b);
    PrefixRead(b, b);
  }

  /** One more id at the end of a path. */
  lemma OneMoreId(head: string, ids: seq<string>, id: string)
    ensures head + Joined(ids) + id + "/" == head + Joined(ids + [id])
  {
    JoinedConcat(ids, [id]);
    assert [id][1..] == [];
    assert Joined([id]) == id + "/";
  }
}
