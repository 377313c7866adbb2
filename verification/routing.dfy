/**
 Shard-allocation filter settings of an index. Each routing group
 (include, exclude, require) owns the settings whose names start with the
 group's prefix; the node attribute the filter tests is the rest of the name.
 */
module Routing {

  /** Keys of IndexMetaData's three routing group settings. */
  const IncludeGroupPrefix: string := "index.routing.allocation.include."
  const ExcludeGroupPrefix: string := "index.routing.allocation.exclude."
  const RequireGroupPrefix: string := "index.routing.allocation.require."

  /** Neither string is a prefix of the other, so no name can belong to both groups. */
  predicate Incomparable(p: string, q: string) {
    !(p <= q) && !(q <= p)
  }

  lemma GroupPrefixesIncomparable()
    ensures Incomparable(IncludeGroupPrefix, ExcludeGroupPrefix)
    ensures Incomparable(IncludeGroupPrefix, RequireGroupPrefix)
    ensures Incomparable(ExcludeGroupPrefix, RequireGroupPrefix)
  {
    // The three prefixes first differ at position 25: 'i', 'e', 'r'.
    assert IncludeGroupPrefix[25] == 'i';
    assert ExcludeGroupPrefix[25] == 'e';
    assert RequireGroupPrefix[25] == 'r';
  }

  /** Two names built on incomparable prefixes never coincide. */
  lemma SeparatedNames(p: string, q: string, k: string, k': string)
    requires Incomparable(p, q)
    ensures p + k != q + k'
  {
    if |p| <= |q| {
      CommonPrefix(p, q, k, k');
    } else {
      CommonPrefix(q, p, k', k);
    }
  }

  /** Equal names agree on their first |p| characters. */
  lemma CommonPrefix(p: string, q: string, k: string, k': string)
    requires |p| <= |q|
    ensures p + k == q + k' ==> p <= q
  {
    if p + k == q + k' {
      assert p == (p + k)[..|p|] == (q + k')[..|p|];
    }
  }

  lemma PrefixCancels(p: string, k: string)
    ensures (p + k)[|p|..] == k
  {
  }

  /** Every entry of `m` moved under `p`: attribute `k` becomes setting `p + k`.
      This is what the test builds with `put(group.getKey() + key, value)`. */
  function Prefixed(p: string, m: map<string, string>): (r: map<string, string>)
    ensures forall k :: k in m ==> p + k in r && r[p + k] == m[k]
  {
    assert forall k :: (p + k)[|p|..] == k;
    map k | k in m :: p + k := m[k]
  }

  /** Every name of a prefixed map is the prefix followed by an attribute. */
  lemma PrefixedName(p: string, m: map<string, string>, s: string)
    ensures s in Prefixed(p, m) ==> p <= s && s[|p|..] in m && p + s[|p|..] == s
  {
    if s in Prefixed(p, m) {
      var k :| k in m && s == p + k;
      PrefixCancels(p, k);
    }
  }

  /** A name built on prefix `p` is not a setting of a group filed under an
      incomparable prefix `q`. */
  lemma ForeignPrefixed(p: string, q: string, k: string, mq: map<string, string>)
    requires Incomparable(p, q)
    ensures p + k !in Prefixed(q, mq)
  {
    if p + k in Prefixed(q, mq) {
      PrefixedName(q, mq, p + k);
      SeparatedNames(p, q, k, (p + k)[|q|..]);
    }
  }

  /** Adding one attribute and then prefixing is prefixing and then adding
      the prefixed setting. */
  lemma PrefixedUpdate(p: string, m: map<string, string>, k: string, v: string)
    ensures Prefixed(p, m[k := v]) == Prefixed(p, m)[p + k := v]
  {
    var l := Prefixed(p, m[k := v]);
    var r := Prefixed(p, m)[p + k := v];
    forall s | s in l
      ensures s in r && l[s] == r[s]
    {
      PrefixCancels(p, s[|p|..]);
      assert p + s[|p|..] == s;
    }
  }

  /** The entries of `settings` that belong to group `p`, with the prefix
      stripped: the routing filter the group's settings describe. */
  ghost function Unprefixed(p: string, settings: map<string, string>): (m: map<string, string>)
    ensures forall k :: k in m <==> p + k in settings
    ensures forall k :: k in m ==> m[k] == settings[p + k]
    decreases |settings|
  {
    if settings == map[] then map[]
    else
      var s :| s in settings;
      var rest := Unprefixed(p, settings - {s});
      if p <= s then
        assert p + s[|p|..] == s;
        assert forall k :: p + k == s ==> k == s[|p|..] by {
          forall k | p + k == s ensures k == s[|p|..] {
            PrefixCancels(p, k);
          }
        }
        rest[s[|p|..] := settings[s]]
      else
        assert forall k :: p + k != s;
        rest
  }

  /** Stripping the group prefix undoes adding it. */
  lemma UnprefixPrefixed(p: string, m: map<string, string>)
    ensures Unprefixed(p, Prefixed(p, m)) == m
  {
    forall k | p + k in Prefixed(p, m)
      ensures k in m
    {
      PrefixedName(p, m, p + k);
      PrefixCancels(p, k);
    }
    UnprefixedExt(p, Prefixed(p, m), m);
  }

  /** Prefixing is injective on names, so the image of a set of names has
      as many elements as the set. */
  lemma {:induction false} PrefixedNamesSize(p: string, names: set<string>)
    ensures |set k | k in names :: p + k| == |names|
    decreases names
  {
    if names != {} {
      var k :| k in names;
      var rest := names - {k};
      PrefixedNamesSize(p, rest);
      var img := set x | x in rest :: p + x;
      assert (set x | x in names :: p + x) == img + {p + k};
      forall x | x in rest
        ensures p + x != p + k
      {
        PrefixCancels(p, x);
        PrefixCancels(p, k);
      }
    }
  }

  /** Prefixing keeps the number of entries. */
  lemma PrefixedSize(p: string, m: map<string, string>)
    ensures |Prefixed(p, m)| == |m|
  {
    assert Prefixed(p, m).Keys == set k | k in m.Keys :: p + k;
    PrefixedNamesSize(p, m.Keys);
  }

  /** Reading group `p` out of a merged map in which `p` contributes `m` and
      two incomparable groups contribute the rest yields `m`. */
  lemma ReadGroup(p: string, q: string, t: string, m: map<string, string>,
                  mq: map<string, string>, mt: map<string, string>, merged: map<string, string>)
    requires Incomparable(p, q) && Incomparable(p, t)
    requires forall s :: s in merged ==> s in Prefixed(p, m) || s in Prefixed(q, mq) || s in Prefixed(t, mt)
    requires forall k :: k in m ==> p + k in merged && merged[p + k] == m[k]
    ensures Unprefixed(p, merged) == m
  {
    forall k | p + k in merged
      ensures k in m
    {
      ForeignPrefixed(p, q, k, mq);
      ForeignPrefixed(p, t, k, mt);
      PrefixedName(p, m, p + k);
      PrefixCancels(p, k);
    }
    UnprefixedExt(p, merged, m);
  }

  /** A map holding exactly the group's attributes with the group's values is
      the group read back. */
  lemma UnprefixedExt(p: string, settings: map<string, string>, m: map<string, string>)
    requires forall k :: k in m <==> p + k in settings
    requires forall k :: k in m ==> settings[p + k] == m[k]
    ensures Unprefixed(p, settings) == m
  {
  }

  /** Three pairwise incomparable groups merged into one settings map (as a
      settings builder merges them, first to last): each group reads back as
      the map it was built from. */
  lemma GroupsReadBack(pi: string, pe: string, pr: string,
                       mi: map<string, string>, me: map<string, string>, mr: map<string, string>)
    requires Incomparable(pi, pe) && Incomparable(pi, pr) && Incomparable(pe, pr)
    ensures Unprefixed(pi, Prefixed(pi, mi) + Prefixed(pe, me) + Prefixed(pr, mr)) == mi
    ensures Unprefixed(pe, Prefixed(pi, mi) + Prefixed(pe, me) + Prefixed(pr, mr)) == me
    ensures Unprefixed(pr, Prefixed(pi, mi) + Prefixed(pe, me) + Prefixed(pr, mr)) == mr
  {
    ReadFirstGroup(pi, pe, pr, mi, me, mr);
    ReadSecondGroup(pi, pe, pr, mi, me, mr);
    ReadThirdGroup(pi, pe, pr, mi, me, mr);
  }

  lemma ReadFirstGroup(pi: string, pe: string, pr: string,
                       mi: map<string, string>, me: map<string, string>, mr: map<string, string>)
    requires Incomparable(pi, pe) && Incomparable(pi, pr)
    ensures Unprefixed(pi, Prefixed(pi, mi) + Prefixed(pe, me) + Prefixed(pr, mr)) == mi
  {
    var merged := Prefixed(pi, mi) + Prefixed(pe, me) + Prefixed(pr, mr);
    forall k | k in mi
      ensures merged[pi + k] == mi[k]
    {
      ForeignPrefixed(pi, pe, k, me);
      ForeignPrefixed(pi, pr, k, mr);
    }
    ReadGroup(pi, pe, pr, mi, me, mr, merged);
  }

  lemma ReadSecondGroup(pi: string, pe: string, pr: string,
                        mi: map<string, string>, me: map<string, string>, mr: map<string, string>)
    requires Incomparable(pi, pe) && Incomparable(pe, pr)
    ensures Unprefixed(pe, Prefixed(pi, mi) + Prefixed(pe, me) + Prefixed(pr, mr)) == me
  {
    var merged := Prefixed(pi, mi) + Prefixed(pe, me) + Prefixed(pr, mr);
    forall k | k in me
      ensures merged[pe + k] == me[k]
    {
      ForeignPrefixed(pe, pr, k, mr);
    }
    ReadGroup(pe, pi, pr, me, mi, mr, merged);
  }

  lemma ReadThirdGroup(pi: string, pe: string, pr: string,
                       mi: map<string, string>, me: map<string, string>, mr: map<string, string>)
    requires Incomparable(pi, pr) && Incomparable(pe, pr)
    ensures Unprefixed(pr, Prefixed(pi, mi) + Prefixed(pe, me) + Prefixed(pr, mr)) == mr
  {
    ReadGroup(pr, pi, pe, mr, mi, me, Prefixed(pi, mi) + Prefixed(pe, me) + Prefixed(pr, mr));
  }

  /** Every name of `s` lies in one of the three groups. */
  predicate Grouped(s: map<string, string>, pi: string, pe: string, pr: string) {
    forall name :: name in s ==> pi <= name || pe <= name || pr <= name
  }

  lemma MergedGrouped(pi: string, pe: string, pr: string,
                      mi: map<string, string>, me: map<string, string>, mr: map<string, string>)
    ensures Grouped(Prefixed(pi, mi) + Prefixed(pe, me) + Prefixed(pr, mr), pi, pe, pr)
  {
  }

  /** Disjoint groups add up: the merged map has one entry per attribute. */
  lemma MergedSize(pi: string, pe: string, pr: string,
                   mi: map<string, string>, me: map<string, string>, mr: map<string, string>)
    requires Incomparable(pi, pe) && Incomparable(pi, pr) && Incomparable(pe, pr)
    ensures |Prefixed(pi, mi) + Prefixed(pe, me) + Prefixed(pr, mr)| == |mi| + |me| + |mr|
  {
    var inc := Prefixed(pi, mi);
    var exc := Prefixed(pe, me);
    var req := Prefixed(pr, mr);
    DisjointGroups(pi, pe, mi, me);
    DisjointGroups(pi, pr, mi, mr);
    DisjointGroups(pe, pr, me, mr);
    DisjointMergeSize(inc, exc);
    DisjointMergeSize(inc + exc, req);
    PrefixedSize(pi, mi);
    PrefixedSize(pe, me);
    PrefixedSize(pr, mr);
  }

  /** Incomparable groups share no setting name. */
  lemma DisjointGroups(p: string, q: string, m: map<string, string>, mq: map<string, string>)
    requires Incomparable(p, q)
    ensures Prefixed(p, m).Keys !! Prefixed(q, mq).Keys
  {
    forall s | s in Prefixed(p, m) ensures s !in Prefixed(q, mq) {
      PrefixedName(p, m, s);
      ForeignPrefixed(p, q, s[|p|..], mq);
    }
  }

  lemma DisjointMergeSize(x: map<string, string>, y: map<string, string>)
    requires x.Keys !! y.Keys
    ensures |x + y| == |x| + |y|
  {
    assert (x + y).Keys == x.Keys + y.Keys;
  }

  /** Two grouped settings maps whose groups all read back alike are equal:
      the groups tell everything about such a map. */
  lemma GroupsDetermine(pi: string, pe: string, pr: string, s: map<string, string>, t: map<string, string>)
    requires Grouped(s, pi, pe, pr) && Grouped(t, pi, pe, pr)
    requires Unprefixed(pi, s) == Unprefixed(pi, t)
    requires Unprefixed(pe, s) == Unprefixed(pe, t)
    requires Unprefixed(pr, s) == Unprefixed(pr, t)
    ensures s == t
  {
    forall name | name in s
      ensures name in t && t[name] == s[name]
    {
      var p := if pi <= name then pi else if pe <= name then pe else pr;
      SameGroupEntry(p, name, s, t);
    }
    forall name | name in t
      ensures name in s
    {
      var p := if pi <= name then pi else if pe <= name then pe else pr;
      SameGroupEntry(p, name, t, s);
    }
  }

  /** A name of group `p` is present in, and has the same value in, two maps
      whose group `p` reads back alike. */
  lemma SameGroupEntry(p: string, name: string, s: map<string, string>, t: map<string, string>)
    requires p <= name && name in s
    requires Unprefixed(p, s) == Unprefixed(p, t)
    ensures name in t && t[name] == s[name]
  {
    var k := name[|p|..];
    assert p + k == name;
    assert k in Unprefixed(p, s);
  }
}
