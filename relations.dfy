/** The relation registry of the regular-expression front end: a table from relation names to
    attribute lists, filled by `create r(a, b, …)` lines and by `create r0 as r1 join r2` lines,
    whose attribute list is the two sources' lists with repeated names qualified. */
module Relations {
  import opened Text

  /** relation name → its attributes, in declaration order */
  type Table = map<string, seq<string>>

  /** Entries already in `before` are still there, with the same value, in `after`. */
  ghost predicate Extends<K, V>(before: map<K, V>, after: map<K, V>) {
    forall k | k in before :: k in after && after[k] == before[k]
  }

  // ----- Splitting the attribute list

  /** `s.split(sep)`: the pieces between the separators, always one more than there are
      separators. */
  function SplitOn(s: string, sep: char): (r: seq<string>)
    ensures |r| >= 1
    ensures forall i | 0 <= i < |r| :: sep !in r[i]
  {
    if s == [] then [[]]
    else
      var rest := SplitOn(s[1..], sep);
      if s[0] == sep then [[]] + rest else [[s[0]] + rest[0]] + rest[1..]
  }

  /** `sep.join(parts)` */
  function JoinWith(parts: seq<string>, sep: char): string
    requires |parts| >= 1
  {
    if |parts| == 1 then parts[0] else parts[0] + [sep] + JoinWith(parts[1..], sep)
  }

  /** Splitting loses nothing: joining the pieces back gives the text. */
  lemma {:induction false} SplitJoin(s: string, sep: char)
    ensures JoinWith(SplitOn(s, sep), sep) == s
  {
    if s != [] {
      var rest := SplitOn(s[1..], sep);
      SplitJoin(s[1..], sep);
      if s[0] == sep {
        assert ([[]] + rest)[1..] == rest;
      } else if |rest| > 1 {
        var r := [[s[0]] + rest[0]] + rest[1..];
        assert r[1..] == rest[1..];
      }
    }
  }

  /** `[attr.strip() for attr in attributes.split(',')]` */
  function AttributeList(attributes: string): (r: seq<string>)
    ensures |r| >= 1
  {
    var parts := SplitOn(attributes, ',');
    seq(|parts|, i requires 0 <= i < |parts| => Strip(parts[i]))
  }

  /** The i-th name in the attribute list is the i-th piece of the text between commas with the
      blanks at its ends removed: it holds no comma and neither starts nor ends with a blank. */
  lemma AttributeShape(attributes: string, i: nat)
    requires i < |SplitOn(attributes, ',')|
    ensures i < |AttributeList(attributes)|
    ensures var p, a := SplitOn(attributes, ',')[i], AttributeList(attributes)[i];
            exists j | 0 <= j <= |p| - |a| :: TrimOf(p, a, j)
    ensures var a := AttributeList(attributes)[i];
            ',' !in a && (a == [] || (!IsSpace(a[0]) && !IsSpace(a[|a| - 1])))
  {
    var parts := SplitOn(attributes, ',');
    assert AttributeList(attributes)[i] == Strip(parts[i]);
    StripInside(parts[i], ',');
  }

  /** Stripping only removes characters. */
  lemma StripInside(s: string, c: char)
    requires c !in s
    ensures c !in Strip(s)
  {
    var l := StripLeft(s);
    var r := StripRight(l);
    assert r == Strip(s);
    forall i | 0 <= i < |r| ensures r[i] != c {
      assert r[i] == l[i];
      assert l[i] == s[|s| - |l| + i];
    }
  }

  // ----- Merging the attributes of a join

  /** The relation whose name qualifies a repeated attribute: the first one whenever it has the
      attribute at all, otherwise the second. */
  function Owner(attr: string, attributes1: seq<string>, relation1: string, relation2: string): string {
    if attr in attributes1 then relation1 else relation2
  }

  /** The `k`-th name of the merged list: the `k`-th attribute of `attributes1 + attributes2`,
      qualified with its owner when it occurred before. */
  function MergedAt(attributes1: seq<string>, attributes2: seq<string>, relation1: string, relation2: string, k: nat): string
    requires k < |attributes1| + |attributes2|
  {
    var all := attributes1 + attributes2;
    if all[k] in all[..k] then Owner(all[k], attributes1, relation1, relation2) + "." + all[k] else all[k]
  }

  /** What `merge_attributes(relation1, relation2)` returns. */
  function MergedNames(attributes1: seq<string>, attributes2: seq<string>, relation1: string, relation2: string): (m: seq<string>)
    ensures |m| == |attributes1| + |attributes2|
  {
    seq(|attributes1| + |attributes2|, k requires 0 <= k < |attributes1| + |attributes2| =>
      MergedAt(attributes1, attributes2, relation1, relation2, k))
  }

  /** No attribute is lost: each merged name is its attribute, or its attribute qualified by one of
      the two relations. */
  lemma MergeKeepsNames(attributes1: seq<string>, attributes2: seq<string>, relation1: string, relation2: string, k: nat)
    requires k < |attributes1| + |attributes2|
    ensures var all := attributes1 + attributes2;
            var m := MergedNames(attributes1, attributes2, relation1, relation2);
            m[k] == all[k] || m[k] == relation1 + "." + all[k] || m[k] == relation2 + "." + all[k]
    ensures var all := attributes1 + attributes2;
            var m := MergedNames(attributes1, attributes2, relation1, relation2);
            all[k] !in all[..k] <==> m[k] == all[k]
  {
    var all := attributes1 + attributes2;
    var m := MergedNames(attributes1, attributes2, relation1, relation2);
    if all[k] in all[..k] {
      var o := Owner(all[k], attributes1, relation1, relation2);
      assert |m[k]| == |o| + 1 + |all[k]|;
    }
  }

  /** No name repeats within the list. */
  predicate Distinct(names: seq<string>) {
    forall i, j | 0 <= i < j < |names| :: names[i] != names[j]
  }

  /** The merged list repeats no name when each source list is free of repeats and no attribute
      holds a dot. */
  lemma MergeDistinct(attributes1: seq<string>, attributes2: seq<string>, relation1: string, relation2: string)
    requires Distinct(attributes1) && Distinct(attributes2)
    requires forall i | 0 <= i < |attributes1| :: '.' !in attributes1[i]
    requires forall i | 0 <= i < |attributes2| :: '.' !in attributes2[i]
    ensures Distinct(MergedNames(attributes1, attributes2, relation1, relation2))
  {
    var all := attributes1 + attributes2;
    var m := MergedNames(attributes1, attributes2, relation1, relation2);
    var n1 := |attributes1|;
    forall i, j | 0 <= i < j < |m| ensures m[i] != m[j] {
      QualifiedFromSecond(attributes1, attributes2, relation1, relation2, i);
      QualifiedFromSecond(attributes1, attributes2, relation1, relation2, j);
      if all[i] in all[..i] && all[j] in all[..j] {
        if m[i] == m[j] {
          QualifiedInjective(relation1, all[i], all[j]);
        }
      } else if all[i] !in all[..i] && all[j] !in all[..j] {
        assert all[j] != all[i] by {
          assert all[..j][i] == all[i];
        }
      } else if all[i] in all[..i] {
        assert m[i][|relation1|] == '.';
        assert '.' !in all[j] by {
          assert all[j] == attributes2[j - n1];
        }
      } else {
        assert m[j][|relation1|] == '.';
        assert '.' !in all[i] by {
          assert i < n1 ==> all[i] == attributes1[i];
          assert i >= n1 ==> all[i] == attributes2[i - n1];
        }
      }
    }
  }

  /** With repeat-free sources a qualified name comes from the second list and names an attribute
      of the first. */
  lemma QualifiedFromSecond(attributes1: seq<string>, attributes2: seq<string>, relation1: string, relation2: string, k: nat)
    requires Distinct(attributes1) && Distinct(attributes2) && k < |attributes1| + |attributes2|
    ensures var all := attributes1 + attributes2;
            all[k] in all[..k] ==> k >= |attributes1| && all[k] in attributes1
                                   && MergedNames(attributes1, attributes2, relation1, relation2)[k] == relation1 + "." + all[k]
  {
    var all := attributes1 + attributes2;
    var n1 := |attributes1|;
    if all[k] in all[..k] {
      var i :| 0 <= i < k && all[..k][i] == all[k];
      assert all[i] == all[k];
      assert k >= n1 && i < n1;
      assert attributes1[i] == all[k];
    }
  }

  /** Qualifying with the same relation keeps names apart. */
  lemma QualifiedInjective(relation: string, a: string, b: string)
    requires relation + "." + a == relation + "." + b
    ensures a == b
  {
    var p := relation + ".";
    assert (p + a)[|p|..] == a && (p + b)[|p|..] == b;
  }

  /** Dots break the promise: a second relation with an attribute already written `r.a` yields a
      list that repeats `r.a`. */
  lemma MergeCanRepeat()
    ensures MergedNames(["a"], ["a", "r.a"], "r", "s") == ["a", "r.a", "r.a"]
    ensures !Distinct(MergedNames(["a"], ["a", "r.a"], "r", "s"))
  {
    var all: seq<string> := ["a", "a", "r.a"];
    assert all[..1] == ["a"];
    assert all[1] in all[..1];
    assert all[2] !in all[..2] by {
      assert all[..2] == ["a", "a"];
    }
    var m := MergedNames(["a"], ["a", "r.a"], "r", "s");
    assert m[1] == "r.a" && m[2] == "r.a";
  }

  // ----- The parsed line

  /** What the two recognizers make of a line: the groups of a `create` line, the three names of a
      `create … as … join …` line, or neither. A line both would accept counts as a `create`
      line. */
  datatype Line =
    | CreateRelation(relation: string, attributes: string)
    | CreateJoin(relation0: string, relation1: string, relation2: string)
    | Unrecognized(text: string)

  /** The message `regex` prints for a line. */
  datatype Outcome =
    | Created(relation: string, attributes: seq<string>)
    | AlreadyExists(relation: string)
    | MissingSource(relation1: string, relation2: string)
    | Joined(relation0: string, relation1: string, relation2: string, attributes: seq<string>)
    | Malformed(text: string)

  /** The module-level `relations` dictionary and the functions that update it. */
  class Registry {
    var relations: Table

    constructor()
      ensures relations == map[]
    {
      relations := map[];
    }

    /** `merge_attributes(relation1, relation2)`: one pass over the two lists, remembering for
        each attribute seen the relation that will qualify its repeats. */
    method MergeAttributes(relation1: string, relation2: string) returns (merged: seq<string>)
      requires relation1 in relations && relation2 in relations
      ensures merged == MergedNames(relations[relation1], relations[relation2], relation1, relation2)
    {
      var attributes1 := relations[relation1];
      var attributes2 := relations[relation2];
      var all := attributes1 + attributes2;
      merged := [];
      var seen: map<string, string> := map[];
      for i := 0 to |all|
        invariant |merged| == i
        invariant forall k | 0 <= k < i :: merged[k] == MergedAt(attributes1, attributes2, relation1, relation2, k)
        invariant forall a :: a in seen <==> a in all[..i]
        invariant forall a | a in seen :: seen[a] == Owner(a, attributes1, relation1, relation2)
      {
        var attr := all[i];
        var newAttr := if attr in seen then seen[attr] + "." + attr else attr;
        merged := merged + [newAttr];
        seen := seen[attr := if attr in attributes1 then relation1 else relation2];
        assert all[..i + 1] == all[..i] + [attr];
      }
    }

    /** `regex(line)`: a new relation is stored under its name, a join of two existing relations
        under the new name with the merged attributes; an existing name, a missing source or an
        unrecognised line leaves the table as it was. */
    method Regex(line: Line) returns (result: Outcome, table: Table)
      modifies this
      ensures table == relations && Extends(old(relations), relations)
      ensures line.CreateRelation? ==>
                if line.relation in old(relations) then
                  result == AlreadyExists(line.relation) && relations == old(relations)
                else
                  result == Created(line.relation, AttributeList(line.attributes))
                  && relations == old(relations)[line.relation := AttributeList(line.attributes)]
      ensures line.CreateJoin? ==>
                if line.relation1 !in old(relations) || line.relation2 !in old(relations) then
                  result == MissingSource(line.relation1, line.relation2) && relations == old(relations)
                else if line.relation0 in old(relations) then
                  result == AlreadyExists(line.relation0) && relations == old(relations)
                else
                  var merged := MergedNames(old(relations)[line.relation1], old(relations)[line.relation2], line.relation1, line.relation2);
                  result == Joined(line.relation0, line.relation1, line.relation2, merged)
                  && relations == old(relations)[line.relation0 := merged]
      ensures line.Unrecognized? ==> result == Malformed(line.text) && relations == old(relations)
    {
      match line {
        case CreateRelation(relation, attributes) =>
          result := Create(relation, attributes);
        case CreateJoin(relation0, relation1, relation2) =>
          result := Join(relation0, relation1, relation2);
        case Unrecognized(text) =>
          result := Malformed(text);
      }
      table := relations;
    }

    /** The `create r(…)` branch of `regex`. */
    method Create(relation: string, attributes: string) returns (result: Outcome)
      modifies this
      ensures Extends(old(relations), relations)
      ensures if relation in old(relations) then
                result == AlreadyExists(relation) && relations == old(relations)
              else
                result == Created(relation, AttributeList(attributes))
                && relations == old(relations)[relation := AttributeList(attributes)]
    {
      if relation in relations {
        result := AlreadyExists(relation);
      } else {
        var list := AttributeList(attributes);
        relations := relations[relation := list];
        result := Created(relation, list);
      }
    }

    /** The `create r0 as r1 join r2` branch of `regex`. */
    method Join(relation0: string, relation1: string, relation2: string) returns (result: Outcome)
      modifies this
      ensures Extends(old(relations), relations)
      ensures if relation1 !in old(relations) || relation2 !in old(relations) then
                result == MissingSource(relation1, relation2) && relations == old(relations)
              else if relation0 in old(relations) then
                result == AlreadyExists(relation0) && relations == old(relations)
              else
                var merged := MergedNames(old(relations)[relation1], old(relations)[relation2], relation1, relation2);
                result == Joined(relation0, relation1, relation2, merged)
                && relations == old(relations)[relation0 := merged]
    {
      if relation1 !in relations || relation2 !in relations {
        result := MissingSource(relation1, relation2);
      } else if relation0 in relations {
        result := AlreadyExists(relation0);
      } else {
        var merged := MergeAttributes(relation1, relation2);
        relations := relations[relation0 := merged];
        result := Joined(relation0, relation1, relation2, merged);
      }
    }
  }
}
