/** Telling players with the same display name apart (src/utils/name-format.ts):
    names are compared on their trimmed, lower-cased form, and a name shared by
    several players is shown with the player's handle. */
module NameFormat {
  import opened Strings
  import opened Seqs

  /** The comparison key of a display name. */
  function NameKey(displayName: string): string {
    Lower(Trim(displayName))
  }

  /** The keys of a list of names, in order. */
  function NameKeys(names: seq<string>): seq<string> {
    Map(names, NameKey)
  }

  /** Reference definition: the keys that occur more than once in `keys`. */
  function Repeated(keys: seq<string>): set<string> {
    set k | k in keys && Occurrences(keys, k) > 1
  }

  /** Counting `keys` one by one into a map and keeping the keys counted more
      than once yields the repeated keys. */
  method CountRepeated(keys: seq<string>) returns (repeated: set<string>)
    ensures forall k :: k in repeated <==> Occurrences(keys, k) > 1
    ensures repeated == Repeated(keys)
  {
    var counts: map<string, nat> := map[];
    for i := 0 to |keys|
      invariant forall k :: k in counts <==> k in keys[..i]
      invariant forall k | k in counts :: counts[k] == Occurrences(keys[..i], k)
    {
      assert keys[..i + 1] == keys[..i] + [keys[i]];
      counts := counts[keys[i] := (if keys[i] in counts then counts[keys[i]] else 0) + 1];
    }
    assert keys[..|keys|] == keys;
    repeated := set k | k in counts && counts[k] > 1;
  }

  /** `findDuplicateDisplayNames`: the keys that more than one name maps to,
      each the key of some name. */
  method FindDuplicateDisplayNames(names: seq<string>) returns (duplicates: set<string>)
    ensures forall k :: k in duplicates <==> Occurrences(NameKeys(names), k) > 1
    ensures forall k | k in duplicates :: exists i | 0 <= i < |names| :: NameKey(names[i]) == k
    ensures duplicates == Repeated(NameKeys(names))
  {
    var keys := NameKeys(names);
    duplicates := CountRepeated(keys);
    forall k | k in duplicates ensures exists i | 0 <= i < |names| :: NameKey(names[i]) == k {
      assert k in multiset(keys);
      var i :| 0 <= i < |keys| && keys[i] == k;
    }
  }

  /** The duplicates do not depend on the order of the names. */
  lemma DuplicatesOrderFree(a: seq<string>, b: seq<string>)
    requires multiset(a) == multiset(b)
    ensures Repeated(NameKeys(a)) == Repeated(NameKeys(b))
  {
    MapPermutation(a, b, NameKey);
    var ka, kb := NameKeys(a), NameKeys(b);
    forall k ensures k in ka <==> k in kb {
      assert k in ka <==> k in multiset(ka);
      assert k in kb <==> k in multiset(kb);
    }
  }

  /** `formatDisplayLabel`: the display name, followed by ` (@handle)` when
      its key is among the duplicates. */
  function FormatDisplayLabel(displayName: string, username: string, duplicates: set<string>): (r: string)
    ensures NameKey(displayName) !in duplicates ==> r == displayName
    ensures NameKey(displayName) in duplicates ==> r == displayName + " (@" + username + ")"
  {
    if NameKey(displayName) in duplicates then displayName + " (@" + username + ")"
    else displayName
  }

  /** Where the handle and its `@` sit in a label `name (@handle)`. */
  lemma LabelLayout(name: string, user: string)
    ensures var l := name + " (@" + user + ")";
            && |l| == |name| + |user| + 4
            && l[|l| - 2 - |user|] == '@'
            && l[|l| - 1 - |user|..|l| - 1] == user
  {
    var l := name + " (@" + user + ")";
    assert l == (name + " (@") + user + ")";
  }

  /** A handle without `@` is at least as long as any handle ending the same
      label: a shorter one would put its `@` inside the longer one. */
  lemma LabelHandleLength(name1: string, user1: string, name2: string, user2: string)
    requires '@' !in user2
    requires name1 + " (@" + user1 + ")" == name2 + " (@" + user2 + ")"
    ensures |user1| >= |user2|
  {
    LabelLayout(name1, user1);
    LabelLayout(name2, user2);
  }

  /** A label `name (@handle)` determines the handle, when handles hold no `@`. */
  lemma LabelDeterminesHandle(name1: string, user1: string, name2: string, user2: string)
    requires '@' !in user1 && '@' !in user2
    requires name1 + " (@" + user1 + ")" == name2 + " (@" + user2 + ")"
    ensures user1 == user2
  {
    LabelHandleLength(name1, user1, name2, user2);
    LabelHandleLength(name2, user2, name1, user1);
    LabelLayout(name1, user1);
    LabelLayout(name2, user2);
  }

  /** Two players whose names clash get different labels as long as their
      handles differ and contain no `@`. */
  lemma LabelsDisambiguate(name1: string, user1: string, name2: string, user2: string, duplicates: set<string>)
    requires NameKey(name1) in duplicates && NameKey(name2) in duplicates
    requires user1 != user2 && '@' !in user1 && '@' !in user2
    ensures FormatDisplayLabel(name1, user1, duplicates) != FormatDisplayLabel(name2, user2, duplicates)
  {
    if FormatDisplayLabel(name1, user1, duplicates) == FormatDisplayLabel(name2, user2, duplicates) {
      LabelDeterminesHandle(name1, user1, name2, user2);
    }
  }
}
