/** The actions of the state-machine recogniser of the first lab: a cursor over the input line and
    the relation table that `create` statements fill. The generated state machine that drives them
    is not part of this model. */
module SmcParser {
  import opened Wrappers
  import opened Text
  import Relations

  /** `str(x)` of an optional name, as the f-string in `merge_attributes` writes it. */
  function PyStr(name: Option<string>): string {
    if name.None? then "None" else name.value
  }

  /** A slice bound as Python normalises it: a negative bound counts from the end, and the result
      is clamped to `[0, n]`. */
  function SliceBound(i: int, n: nat): (r: nat)
    ensures r <= n
    ensures 0 <= i <= n ==> r == i
  {
    if i < 0 then (if i + n < 0 then 0 else i + n) else if i > n then n else i
  }

  /** `s[lo:hi]` */
  function PySlice(s: string, lo: int, hi: int): (r: string)
    ensures |r| <= |s|
    ensures 0 <= lo <= hi <= |s| ==> r == s[lo..hi]
  {
    var a := SliceBound(lo, |s|);
    var b := SliceBound(hi, |s|);
    if a < b then s[a..b] else []
  }

  /** A negative start counts from the end: `s[-1:i]` starts at the last character. */
  lemma SliceFromEnd(s: string, lo: int, hi: int)
    requires lo < 0 && -lo <= |s|
    ensures PySlice(s, lo, hi) == PySlice(s, |s| + lo, hi)
  {
  }

  /** Stripping a word that neither starts nor ends with a blank gives the word back. */
  lemma StripWord(s: string)
    requires s == [] || (!IsSpace(s[0]) && !IsSpace(s[|s| - 1]))
    ensures Strip(s) == s
  {
  }

  class SqlParser {
    /** the line being recognised */
    var text: string
    /** the cursor */
    var index: int
    /** one before the first character of the current token */
    var lastSymbol: int
    /** relation name → attributes; a name that was never set is `None` */
    var relations: map<Option<string>, seq<string>>
    var currentRelation: Option<string>
    var tempRelation1: Option<string>
    var tempRelation2: Option<string>
    var tempAttributes: seq<string>
    var isValid: bool

    /** The cursor never leaves the line. */
    ghost predicate Valid()
      reads this
    {
      0 <= index <= |text|
    }

    /** The relation table and the parsed names are as they were. */
    twostate predicate ActionsKept()
      reads this
    {
      relations == old(relations) && currentRelation == old(currentRelation)
      && tempRelation1 == old(tempRelation1) && tempRelation2 == old(tempRelation2)
      && tempAttributes == old(tempAttributes) && isValid == old(isValid)
    }

    constructor()
      ensures Valid()
      ensures text == "" && index == 0 && lastSymbol == -1 && relations == map[]
      ensures currentRelation == None && tempRelation1 == None && tempRelation2 == None
      ensures tempAttributes == [] && !isValid
    {
      text := "";
      index := 0;
      lastSymbol := -1;
      relations := map[];
      currentRelation := None;
      tempRelation1 := None;
      tempRelation2 := None;
      tempAttributes := [];
      isValid := false;
    }

    /** `prepare(string)`: a new line with the cursor at its start and no parsed names; the
        relation table survives from line to line. */
    method Prepare(s: string)
      modifies this
      ensures Valid()
      ensures text == s && index == 0 && lastSymbol == old(lastSymbol)
      ensures currentRelation == None && tempRelation1 == None && tempRelation2 == None && tempAttributes == []
      ensures relations == old(relations) && isValid == old(isValid)
    {
      text := s;
      index := 0;
      currentRelation := None;
      tempRelation1 := None;
      tempRelation2 := None;
      tempAttributes := [];
    }

    /** `peek()`: the character under the cursor, a newline once the line is used up. */
    function Peek(): (c: char)
      reads this
      requires Valid()
      ensures index < |text| ==> c == text[index]
      ensures index == |text| ==> c == '\n'
    {
      if index < |text| then text[index] else '\n'
    }

    /** `match(keyword)`: whether the keyword starts at the cursor. */
    function Match(keyword: string): (matched: bool)
      reads this
      requires Valid()
      ensures matched <==> keyword <= text[index..]
    {
      keyword == PySlice(text, index, index + |keyword|)
    }

    /** `consume(more)`: the cursor moves past `1 + more` characters when the last of them is on
        the line, and otherwise stays. */
    method Consume(more: nat)
      requires Valid()
      modifies this
      ensures Valid() && ActionsKept() && text == old(text) && lastSymbol == old(lastSymbol)
      ensures index == if old(index) + more < |text| then old(index) + 1 + more else old(index)
    {
      if index + more < |text| {
        index := index + 1 + more;
      }
    }

    /** `consume_whitespace()`: the cursor moves past the spaces in front of it, and only spaces. */
    method ConsumeWhitespace()
      requires Valid()
      modifies this
      ensures Valid() && ActionsKept() && text == old(text) && lastSymbol == old(lastSymbol)
      ensures old(index) <= index && forall k | old(index) <= k < index :: text[k] == ' '
      ensures Peek() != ' '
    {
      while Peek() == ' '
        invariant Valid() && ActionsKept() && text == old(text) && lastSymbol == old(lastSymbol)
        invariant old(index) <= index && forall k | old(index) <= k < index :: text[k] == ' '
        decreases |text| - index
      {
        Consume(0);
      }
    }

    /** `token_start()`: the token begins at the character just consumed. */
    method TokenStart()
      modifies this
      ensures lastSymbol == index - 1
      ensures index == old(index) && text == old(text) && ActionsKept()
    {
      lastSymbol := index - 1;
    }

    /** `token_end()`: the text from the token's start to the cursor, stripped of blanks. */
    function TokenEnd(): (token: string)
      reads this
      ensures token == [] || (!IsSpace(token[0]) && !IsSpace(token[|token| - 1]))
      ensures var w := PySlice(text, lastSymbol, index); exists j | 0 <= j <= |w| - |token| :: TrimOf(w, token, j)
      ensures 0 <= lastSymbol <= index <= |text| ==> |token| <= index - lastSymbol
    {
      Strip(PySlice(text, lastSymbol, index))
    }

    /** A token without blanks at its ends comes back exactly as it stands in the line. */
    lemma TokenIsSlice()
      requires 0 <= lastSymbol <= index <= |text|
      requires var w := text[lastSymbol..index]; w == [] || (!IsSpace(w[0]) && !IsSpace(w[|w| - 1]))
      ensures TokenEnd() == text[lastSymbol..index]
    {
      StripWord(text[lastSymbol..index]);
    }

    /** `set_relation()`: the token names the relation being created. */
    method SetRelation() returns (name: Option<string>)
      modifies this
      ensures name == currentRelation == Some(old(TokenEnd()))
      ensures text == old(text) && index == old(index) && lastSymbol == old(lastSymbol)
      ensures relations == old(relations) && tempRelation1 == old(tempRelation1) && tempRelation2 == old(tempRelation2)
      ensures tempAttributes == old(tempAttributes) && isValid == old(isValid)
    {
      currentRelation := Some(TokenEnd());
      name := currentRelation;
    }

    /** `set_relation1()`: the token names the first source of a join. */
    method SetRelation1() returns (name: Option<string>)
      modifies this
      ensures name == tempRelation1 == Some(old(TokenEnd()))
      ensures text == old(text) && index == old(index) && lastSymbol == old(lastSymbol)
      ensures relations == old(relations) && currentRelation == old(currentRelation) && tempRelation2 == old(tempRelation2)
      ensures tempAttributes == old(tempAttributes) && isValid == old(isValid)
    {
      tempRelation1 := Some(TokenEnd());
      name := tempRelation1;
    }

    /** `set_relation2()`: the token names the second source of a join. */
    method SetRelation2() returns (name: Option<string>)
      modifies this
      ensures name == tempRelation2 == Some(old(TokenEnd()))
      ensures text == old(text) && index == old(index) && lastSymbol == old(lastSymbol)
      ensures relations == old(relations) && currentRelation == old(currentRelation) && tempRelation1 == old(tempRelation1)
      ensures tempAttributes == old(tempAttributes) && isValid == old(isValid)
    {
      tempRelation2 := Some(TokenEnd());
      name := tempRelation2;
    }

    /** `add_attribute()`: the token is the next attribute. */
    method AddAttribute() returns (attributes: seq<string>)
      modifies this
      ensures attributes == tempAttributes == old(tempAttributes) + [old(TokenEnd())]
      ensures text == old(text) && index == old(index) && lastSymbol == old(lastSymbol)
      ensures relations == old(relations) && currentRelation == old(currentRelation)
      ensures tempRelation1 == old(tempRelation1) && tempRelation2 == old(tempRelation2) && isValid == old(isValid)
    {
      tempAttributes := tempAttributes + [TokenEnd()];
      attributes := tempAttributes;
    }

    /** `register_relation()`: the collected attributes are stored under the relation's name
        unless that name is taken; existing relations never change. */
    method RegisterRelation()
      modifies this
      ensures Relations.Extends(old(relations), relations)
      ensures relations == if old(currentRelation) in old(relations) then old(relations)
                           else old(relations)[old(currentRelation) := old(tempAttributes)]
      ensures text == old(text) && index == old(index) && lastSymbol == old(lastSymbol)
      ensures currentRelation == old(currentRelation) && tempRelation1 == old(tempRelation1)
      ensures tempRelation2 == old(tempRelation2) && tempAttributes == old(tempAttributes) && isValid == old(isValid)
    {
      if currentRelation !in relations {
        relations := relations[currentRelation := tempAttributes];
      }
    }

    /** `merge_relations()`: when both sources exist and the new name is free, the new relation
        gets the merged attributes of the two; otherwise nothing changes. */
    method MergeRelations()
      modifies this
      ensures Relations.Extends(old(relations), relations)
      ensures relations ==
                if old(tempRelation1) !in old(relations) || old(tempRelation2) !in old(relations)
                   || old(currentRelation) in old(relations) then old(relations)
                else old(relations)[old(currentRelation) :=
                       Relations.MergedNames(old(relations)[old(tempRelation1)], old(relations)[old(tempRelation2)],
                                             PyStr(old(tempRelation1)), PyStr(old(tempRelation2)))]
      ensures text == old(text) && index == old(index) && lastSymbol == old(lastSymbol)
      ensures currentRelation == old(currentRelation) && tempRelation1 == old(tempRelation1)
      ensures tempRelation2 == old(tempRelation2) && tempAttributes == old(tempAttributes) && isValid == old(isValid)
    {
      if tempRelation1 !in relations || tempRelation2 !in relations {
      } else if currentRelation in relations {
      } else {
        var merged := MergeAttributes(tempRelation1, tempRelation2);
        relations := relations[currentRelation := merged];
      }
    }

    /** `merge_attributes(relation1, relation2)`: the same merge as the regular-expression front
        end's, with a missing name written `None`. */
    method MergeAttributes(relation1: Option<string>, relation2: Option<string>) returns (merged: seq<string>)
      requires relation1 in relations && relation2 in relations
      ensures merged == Relations.MergedNames(relations[relation1], relations[relation2], PyStr(relation1), PyStr(relation2))
    {
      var attributes1 := relations[relation1];
      var attributes2 := relations[relation2];
      var all := attributes1 + attributes2;
      merged := [];
      var seen: map<string, Option<string>> := map[];
      for i := 0 to |all|
        invariant |merged| == i
        invariant forall k | 0 <= k < i ::
                    merged[k] == Relations.MergedAt(attributes1, attributes2, PyStr(relation1), PyStr(relation2), k)
        invariant forall a :: a in seen <==> a in all[..i]
        invariant forall a | a in seen :: seen[a] == if a in attributes1 then relation1 else relation2
      {
        var attr := all[i];
        var newAttr := if attr in seen then PyStr(seen[attr]) + "." + attr else attr;
        merged := merged + [newAttr];
        seen := seen[attr := if attr in attributes1 then relation1 else relation2];
        assert all[..i + 1] == all[..i] + [attr];
      }
    }
  }
}
