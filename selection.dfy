/** The selection state: the `country` query value, a comma-joined string of
    selected category keys, together with the list derived from it and the two
    ways the component rewrites it (toggle one key, replace by a range). */
module Selection {

  import opened Lists

  const Separator: char := ','

  /** A key that survives a round trip through the persisted string: not empty, no separator. */
  predicate IsKey(k: string) {
    k != "" && Separator !in k
  }

  predicate AllKeys(ks: seq<string>) {
    forall i :: 0 <= i < |ks| ==> IsKey(ks[i])
  }

  predicate NoSeparators(ks: seq<string>) {
    forall i :: 0 <= i < |ks| ==> Separator !in ks[i]
  }

  /** `parts.join(",")`: the parts with one separator between neighbours; `[]` gives "". */
  function Join(parts: seq<string>): string {
    if |parts| == 0 then ""
    else if |parts| == 1 then parts[0]
    else parts[0] + [Separator] + Join(parts[1..])
  }

  /** Joining separator-free parts writes one separator between neighbours and no other. */
  lemma {:induction false} JoinSeparators(parts: seq<string>)
    requires NoSeparators(parts)
    ensures multiset(Join(parts))[Separator] == if |parts| == 0 then 0 else |parts| - 1
  {
    if |parts| > 1 {
      assert NoSeparators(parts[1..]);
      JoinSeparators(parts[1..]);
      assert Separator !in parts[0];
    } else if |parts| == 1 {
      assert Separator !in parts[0];
    }
  }

  /** `s.split(",")`: the maximal separator-free pieces of `s`; "" gives [""]. */
  function Split(s: string): (parts: seq<string>)
    ensures |parts| >= 1
    ensures NoSeparators(parts)
    ensures Join(parts) == s
  {
    if s == [] then [""]
    else
      var rest := Split(s[1..]);
      if s[0] == Separator then
        assert [Separator] + Join(rest) == s;
        [""] + rest
      else
        var parts := [[s[0]] + rest[0]] + rest[1..];
        assert parts[1..] == rest[1..];
        assert s == [s[0]] + s[1..];
        parts
  }

  /** The test `filter(Boolean)` applies to a piece. */
  const IsPiece: string -> bool := (p: string) => p != ""

  /** Drops the empty pieces, as `filter(Boolean)` does. */
  function NonEmpty(parts: seq<string>): seq<string> {
    Filter(parts, IsPiece)
  }

  /** The test `filter((x) => x !== v)` applies to a key. */
  function Differs(v: string): string -> bool {
    (x: string) => x != v
  }

  /** `selectedList`: the selected keys, parsed from the persisted string. */
  function Parse(s: string): (keys: seq<string>)
    ensures AllKeys(keys)
    ensures s == "" ==> keys == []
  {
    if s == "" then [] else NonEmpty(Split(s))
  }

  /** The list without any occurrence of `v` (`filter((x) => x !== v)`). */
  function RemoveAll(keys: seq<string>, v: string): seq<string> {
    Filter(keys, Differs(v))
  }

  /** `toggleSelection` on the list: remove every `v` if present, else append it. */
  function Toggle(keys: seq<string>, v: string): (r: seq<string>)
    ensures v in r <==> v !in keys
    ensures forall k :: k != v ==> (k in r <==> k in keys)
    ensures v !in keys ==> r == keys + [v]
  {
    if v in keys then RemoveAll(keys, v) else keys + [v]
  }

  /** The string `toggleSelection(v)` writes back into the persisted state. */
  function ToggleSelected(s: string, v: string): (r: string)
    ensures IsKey(v) ==> Parse(r) == Toggle(Parse(s), v)
  {
    var keys := Toggle(Parse(s), v);
    assert IsKey(v) ==> Parse(Join(keys)) == keys by {
      if IsKey(v) {
        assert AllKeys(keys);
        ParseJoinKeys(keys);
      }
    }
    Join(keys)
  }

  /** The string after toggling each key of `keys` in turn, starting from `s`. */
  function ApplyToggles(s: string, keys: seq<string>): string
    decreases |keys|
  {
    if |keys| == 0 then s else ApplyToggles(ToggleSelected(s, keys[0]), keys[1..])
  }

  /** Splitting a separator-free prefix glues it onto the first piece of the rest. */
  lemma {:induction false} SplitPrefix(a: string, t: string)
    requires Separator !in a
    ensures Split(a + t) == [a + Split(t)[0]] + Split(t)[1..]
  {
    if a == [] {
      assert a + t == t;
      assert a + Split(t)[0] == Split(t)[0];
      assert Split(t) == [Split(t)[0]] + Split(t)[1..];
    } else {
      assert (a + t)[0] == a[0];
      assert (a + t)[1..] == a[1..] + t;
      SplitPrefix(a[1..], t);
      assert [a[0]] + (a[1..] + Split(t)[0]) == a + Split(t)[0];
    }
  }

  /** Splitting undoes joining when no part holds a separator. */
  lemma {:induction false} SplitJoin(parts: seq<string>)
    requires |parts| >= 1 && NoSeparators(parts)
    ensures Split(Join(parts)) == parts
  {
    if |parts| == 1 {
      SplitPrefix(parts[0], "");
      assert parts[0] + "" == parts[0];
    } else {
      var tail := Join(parts[1..]);
      SplitJoin(parts[1..]);
      assert Join(parts) == parts[0] + ([Separator] + tail);
      SplitPrefix(parts[0], [Separator] + tail);
      assert ([Separator] + tail)[1..] == tail;
      assert Split([Separator] + tail) == [""] + parts[1..];
      assert parts[0] + "" == parts[0];
    }
  }

  /** Parsing a joined list gives back its non-empty parts, in order. */
  lemma ParseJoin(parts: seq<string>)
    requires NoSeparators(parts)
    ensures Parse(Join(parts)) == NonEmpty(parts)
  {
    if |parts| > 0 {
      SplitJoin(parts);
      if Join(parts) == "" {
        assert parts == [""];
        assert NonEmpty(parts) == [];
      }
    }
  }

  /** `setSelectedRange(vals)` followed by parsing gives back exactly `vals` when they are keys. */
  lemma ParseJoinKeys(keys: seq<string>)
    requires AllKeys(keys)
    ensures Parse(Join(keys)) == keys
  {
    ParseJoin(keys);
    FilterKeepsAll(keys, IsPiece);
  }

  /** Re-serialising the parsed list is a normal form: parsing it again changes nothing. */
  lemma ParseNormalizes(s: string)
    ensures Parse(Join(Parse(s))) == Parse(s)
  {
    ParseJoinKeys(Parse(s));
  }

  /** After `toggleSelection(v)` for a key `v`, `v` is selected iff it was not, and
      every other key keeps its status. */
  lemma ToggleSelectedMembership(s: string, v: string)
    requires IsKey(v)
    ensures v in Parse(ToggleSelected(s, v)) <==> v !in Parse(s)
    ensures forall k :: k != v ==> (k in Parse(ToggleSelected(s, v)) <==> k in Parse(s))
  {
    assert Parse(ToggleSelected(s, v)) == Toggle(Parse(s), v);
  }

  /** Toggling a key that is not selected twice restores the selection
      (in its normal form). */
  lemma ToggleTwice(s: string, v: string)
    requires IsKey(v) && v !in Parse(s)
    ensures ToggleSelected(ToggleSelected(s, v), v) == Join(Parse(s))
  {
    var keys := Parse(s);
    assert Toggle(keys, v) == keys + [v];
    assert AllKeys(keys + [v]);
    ParseJoinKeys(keys + [v]);
    assert Parse(ToggleSelected(s, v)) == keys + [v];
    FilterConcat(keys, [v], Differs(v));
    FilterKeepsAll(keys, Differs(v));
    assert RemoveAll([v], v) == [];
    assert Toggle(keys + [v], v) == keys;
  }

  /** Toggling the empty key writes a trailing separator that parsing drops again. */
  lemma ToggleEmptyKey(s: string)
    ensures Parse(ToggleSelected(s, "")) == Parse(s)
  {
    var keys := Parse(s);
    assert Toggle(keys, "") == keys + [""];
    assert NoSeparators(keys + [""]);
    ParseJoin(keys + [""]);
    FilterConcat(keys, [""], IsPiece);
    FilterKeepsAll(keys, IsPiece);
    assert NonEmpty([""]) == [];
  }

  /** Whether `k` is toggled an odd number of times in `keys`, as a running parity. */
  function OddlyToggled(keys: seq<string>, k: string): bool {
    if |keys| == 0 then false else (keys[0] == k) != OddlyToggled(keys[1..], k)
  }

  /** The running parity agrees with counting the occurrences. */
  lemma {:induction false} OddlyToggledCount(keys: seq<string>, k: string)
    ensures OddlyToggled(keys, k) <==> Count(keys, k) % 2 == 1
  {
    if |keys| > 0 {
      OddlyToggledCount(keys[1..], k);
    }
  }

  /** After a sequence of toggles, a key's status is flipped iff it was toggled
      an odd number of times. */
  lemma {:induction false} TogglesParity(s: string, keys: seq<string>, k: string)
    requires AllKeys(keys)
    ensures k in Parse(ApplyToggles(s, keys)) <==> ((k in Parse(s)) != (Count(keys, k) % 2 == 1))
  {
    TogglesFlip(s, keys, k);
    OddlyToggledCount(keys, k);
  }

  lemma {:induction false} TogglesFlip(s: string, keys: seq<string>, k: string)
    requires AllKeys(keys)
    ensures k in Parse(ApplyToggles(s, keys)) <==> ((k in Parse(s)) != OddlyToggled(keys, k))
    decreases |keys|
  {
    if |keys| > 0 {
      var next := ToggleSelected(s, keys[0]);
      ToggleSelectedMembership(s, keys[0]);
      assert AllKeys(keys[1..]);
      TogglesFlip(next, keys[1..], k);
    }
  }

  /** From the empty selection, a key is selected iff it was toggled an odd number of times. */
  lemma TogglesFromEmpty(keys: seq<string>, k: string)
    requires AllKeys(keys)
    ensures k in Parse(ApplyToggles("", keys)) <==> Count(keys, k) % 2 == 1
  {
    TogglesParity("", keys, k);
  }
}
