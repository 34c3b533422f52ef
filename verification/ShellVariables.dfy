/**
 One shell variable. Its meaning is a sparse map from subscripts to strings, beside an
 associative one; the class keeps a lone element 0 in a field of its own instead.
 */
module ShellVariables {
  import opened Wrappers

  datatype Attributes = Attributes(exported: bool, readOnly: bool, indexedArray: bool, associativeArray: bool,
                                   nameRef: bool, upperCase: bool, lowerCase: bool)

  /** The case mappings of the platform. */
  datatype Letters = Letters(upper: string -> string, lower: string -> string)

  /** A subscript as written, and the number it reads as, if it does. */
  datatype Subscript = Subscript(text: string, number: Option<int>)

  datatype Contents = Stored(attributes: Attributes, elements: map<int, string>, entries: map<string, string>)

  // ---- the sparse map ----

  ghost predicate IsHighest(elements: map<int, string>, h: int) {
    h in elements && forall k :: k in elements ==> k <= h
  }

  lemma EmptyOrSome(keys: set<int>)
    ensures keys == {} || exists k :: k in keys
  {
    if forall k :: k !in keys { assert keys == {}; }
  }

  lemma {:induction false} HighestExists(elements: map<int, string>) returns (h: int)
    requires elements != map[]
    ensures IsHighest(elements, h)
    decreases |elements|
  {
    EmptyOrSome(elements.Keys);
    var k :| k in elements.Keys;
    var rest := elements - {k};
    h := k;
    if rest != map[] {
      var other := HighestExists(rest);
      h := if other > k then other else k;
      assert forall j :: j in elements ==> j == k || j in rest;
    }
  }

  /** One past the highest subscript in use. */
  ghost function Next(elements: map<int, string>): int {
    if exists h :: IsHighest(elements, h) then
      var h :| IsHighest(elements, h);
      h + 1
    else 0
  }

  lemma NextIs(elements: map<int, string>, h: int)
    requires IsHighest(elements, h)
    ensures Next(elements) == h + 1
  {}

  lemma NextOfNone()
    ensures Next(map[]) == 0
  {}

  /** A negative subscript counts back from the end. */
  ghost function Resolve(elements: map<int, string>, index: int): int {
    if index >= 0 then index else Next(elements) + index
  }

  function Cased(a: Attributes, l: Letters, value: string): string {
    if a.upperCase then l.upper(value) else if a.lowerCase then l.lower(value) else value
  }

  ghost function WithScalar(c: Contents, l: Letters, value: string): Contents {
    if c.attributes.associativeArray then c.(entries := c.entries["0" := Cased(c.attributes, l, value)])
    else if c.attributes.indexedArray then c.(elements := c.elements[0 := Cased(c.attributes, l, value)])
    else c.(elements := map[0 := Cased(c.attributes, l, value)])
  }

  ghost function WithIndexed(c: Contents, l: Letters, index: int, value: string): Contents {
    c.(attributes := c.attributes.(indexedArray := true),
       elements := c.elements[Resolve(c.elements, index) := Cased(c.attributes, l, value)])
  }

  /** The values at consecutive subscripts from `next`. */
  ghost function Filled(elements: map<int, string>, next: int, values: seq<string>): map<int, string>
    decreases |values|
  {
    if values == [] then elements else Filled(elements[next := values[0]], next + 1, values[1..])
  }

  ghost function CasedAll(a: Attributes, l: Letters, values: seq<string>): (r: seq<string>)
    ensures |r| == |values| && forall k :: 0 <= k < |r| ==> r[k] == Cased(a, l, values[k])
  {
    seq(|values|, k requires 0 <= k < |values| => Cased(a, l, values[k]))
  }

  ghost function WithArray(c: Contents, l: Letters, values: seq<string>): Contents {
    c.(attributes := c.attributes.(indexedArray := true), elements := Filled(map[], 0, CasedAll(c.attributes, l, values)))
  }

  ghost function WithAppended(c: Contents, l: Letters, values: seq<string>): Contents {
    c.(attributes := c.attributes.(indexedArray := true),
       elements := Filled(c.elements, Next(c.elements), CasedAll(c.attributes, l, values)))
  }

  ghost function WithoutElement(c: Contents, s: Subscript): Contents {
    if c.attributes.associativeArray then c.(entries := c.entries - {s.text})
    else if s.number.None? then c
    else c.(elements := c.elements - {Resolve(c.elements, s.number.value)})
  }

  ghost function Element(c: Contents, s: Subscript): Option<string> {
    if c.attributes.associativeArray then (if s.text in c.entries then Some(c.entries[s.text]) else None)
    else if s.number.None? then None
    else
      var index := Resolve(c.elements, s.number.value);
      if index in c.elements then Some(c.elements[index]) else None
  }

  /** The element a plain `$x` reads, which is also the one `${x+set}` asks about. */
  ghost function First(c: Contents): Option<string> {
    if c.attributes.associativeArray then (if "0" in c.entries then Some(c.entries["0"]) else None)
    else if 0 in c.elements then Some(c.elements[0]) else None
  }

  // ---- the variable ----

  class ShellVariable {
    const letters: Letters
    var attributes: Attributes
    var indexed: Option<map<int, string>>
    var associative: map<string, string>
    var scalar: Option<string>

    /** The scalar and the map form are never both live. */
    ghost predicate Valid()
      reads this
    {
      indexed.Some? ==> scalar.None?
    }

    ghost function Elements(): map<int, string>
      reads this
    {
      match indexed
      case Some(elements) => elements
      case None => match scalar case Some(value) => map[0 := value] case None => map[]
    }

    ghost function Contents(): Contents
      reads this
    {
      Stored(attributes, Elements(), associative)
    }

    constructor (letters: Letters, attributes: Attributes)
      ensures Valid() && this.letters == letters && Contents() == Stored(attributes, map[], map[])
    {
      this.letters, this.attributes := letters, attributes;
      indexed, associative, scalar := None, map[], None;
    }

    method SetScalar(value: string)
      requires Valid()
      modifies this
      ensures Valid() && Contents() == WithScalar(old(Contents()), letters, value)
    {
      if attributes.associativeArray {
        associative := associative["0" := Cased(attributes, letters, value)];
        return;
      }
      if attributes.indexedArray && indexed.Some? {
        indexed := Some(indexed.value[0 := Cased(attributes, letters, value)]);
        return;
      }
      indexed := None;
      scalar := Some(Cased(attributes, letters, value));
    }

    method AppendScalar(value: string)
      requires Valid()
      modifies this
      ensures Valid()
      ensures Contents() == WithScalar(old(Contents()), letters, (match First(old(Contents())) case Some(v) => v case None => "") + value)
    {
      var before := Value();
      SetScalar(before + value);
    }

    method SetIndexed(index0: int, value: string)
      requires Valid()
      modifies this
      ensures Valid() && Contents() == WithIndexed(old(Contents()), letters, index0, value)
    {
      ghost var before := Elements();
      attributes := attributes.(indexedArray := true);
      var index := index0;
      if index < 0 {
        var count := IndexedCount();
        if count == 0 {
          NextOfNone();
        } else {
          var highest := HighestIndex();
          NextIs(before, highest);
          index := index + highest + 1;
        }
      }
      assert index == Resolve(before, index0);
      if index == 0 && indexed.None? {
        scalar := Some(Cased(attributes, letters, value));
      } else {
        Promote();
        indexed := Some(indexed.value[index := Cased(attributes, letters, value)]);
      }
    }

    method SetAssociative(key: string, value: string)
      requires Valid()
      modifies this
      ensures Valid()
      ensures Contents() == old(Contents()).(attributes := old(attributes).(associativeArray := true),
                              entries := old(associative)[key := Cased(old(attributes), letters, value)])
    {
      attributes := attributes.(associativeArray := true);
      associative := associative[key := Cased(attributes, letters, value)];
    }

    method SetArray(values: seq<string>)
      requires Valid()
      modifies this
      ensures Valid() && Contents() == WithArray(old(Contents()), letters, values)
    {
      attributes := attributes.(indexedArray := true);
      assert CasedAll(attributes, letters, values) == CasedAll(old(attributes), letters, values);
      indexed := None;
      scalar := None;
      Fill(values, 0);
    }

    method AppendArray(values: seq<string>)
      requires Valid()
      modifies this
      ensures Valid() && Contents() == WithAppended(old(Contents()), letters, values)
    {
      attributes := attributes.(indexedArray := true);
      assert CasedAll(attributes, letters, values) == CasedAll(old(attributes), letters, values);
      var count := IndexedCount();
      var next := 0;
      if count == 0 {
        NextOfNone();
      } else {
        var highest := HighestIndex();
        NextIs(Elements(), highest);
        next := highest + 1;
      }
      Fill(values, next);
    }

    /** Writes values at consecutive subscripts, keeping the one-element form while it holds. */
    method Fill(values: seq<string>, from0: int)
      requires Valid()
      modifies this
      ensures Valid() && attributes == old(attributes) && associative == old(associative)
      ensures Elements() == Filled(old(Elements()), from0, CasedAll(attributes, letters, values))
    {
      ghost var cased := CasedAll(attributes, letters, values);
      var next := from0;
      assert cased[0..] == cased;
      for k := 0 to |values|
        invariant Valid() && attributes == old(attributes) && associative == old(associative)
        invariant next == from0 + k
        invariant Filled(old(Elements()), from0, cased) == Filled(Elements(), next, cased[k..])
      {
        assert cased[k..][1..] == cased[k + 1..];
        assert cased[k..][0] == Cased(attributes, letters, values[k]);
        ghost var before := Elements();
        if next == 0 && indexed.None? {
          scalar := Some(Cased(attributes, letters, values[k]));
        } else {
          Promote();
          indexed := Some(indexed.value[next := Cased(attributes, letters, values[k])]);
        }
        assert Elements() == before[next := cased[k]];
        next := next + 1;
      }
    }

    method GetElement(s: Subscript) returns (r: Option<string>)
      requires Valid()
      ensures r == Element(Contents(), s)
    {
      if attributes.associativeArray {
        return if s.text in associative then Some(associative[s.text]) else None;
      }
      if s.number.None? {
        return None;
      }
      var index := NormalizeIndex(s.number.value);
      if indexed.None? {
        return if index == 0 then scalar else None;
      }
      r := if index in indexed.value then Some(indexed.value[index]) else None;
    }

    method UnsetElement(s: Subscript)
      requires Valid()
      modifies this
      ensures Valid() && Contents() == WithoutElement(old(Contents()), s)
    {
      if attributes.associativeArray {
        associative := associative - {s.text};
        return;
      }
      if s.number.None? {
        return;
      }
      var index := NormalizeIndex(s.number.value);
      if indexed.None? {
        if index == 0 {
          scalar := None;
        }
        return;
      }
      indexed := Some(indexed.value - {index});
    }

    method Value() returns (r: string)
      requires Valid()
      ensures r == match First(Contents()) case Some(v) => v case None => ""
    {
      if attributes.associativeArray {
        return if "0" in associative then associative["0"] else "";
      }
      if indexed.None? {
        return if scalar.Some? then scalar.value else "";
      }
      r := if 0 in indexed.value then indexed.value[0] else "";
    }

    method IsUnset() returns (r: bool)
      requires Valid()
      ensures r <==> First(Contents()).None?
    {
      r := if attributes.associativeArray then "0" !in associative
           else if indexed.None? then scalar.None? else 0 !in indexed.value;
    }

    method Count() returns (r: nat)
      requires Valid()
      ensures r == if attributes.associativeArray then |Contents().entries| else |Contents().elements|
    {
      if attributes.associativeArray {
        return |associative|;
      }
      r := IndexedCount();
    }

    method IndexedCount() returns (r: nat)
      requires Valid()
      ensures r == |Elements()| && (r == 0 <==> Elements() == map[])
    {
      r := if indexed.Some? then |indexed.value| else if scalar.None? then 0 else 1;
    }

    method NormalizeIndex(index: int) returns (r: int)
      requires Valid()
      ensures r == Resolve(Elements(), index)
    {
      if index >= 0 {
        return index;
      }
      var count := IndexedCount();
      var highest := -1;
      if count == 0 {
        NextOfNone();
      } else {
        highest := HighestIndex();
        NextIs(Elements(), highest);
      }
      r := highest + 1 + index;
    }

    method HighestIndex() returns (h: int)
      requires Valid() && Elements() != map[]
      ensures IsHighest(Elements(), h)
    {
      if indexed.None? {
        return 0;
      }
      var keys := indexed.value.Keys;
      EmptyOrSome(keys);
      h :| h in keys;
      keys := keys - {h};
      while keys != {}
        invariant keys <= indexed.value.Keys && h in indexed.value
        invariant forall k :: k in indexed.value ==> k in keys || k <= h
        decreases |keys|
      {
        EmptyOrSome(keys);
        var k :| k in keys;
        if k > h {
          h := k;
        }
        keys := keys - {k};
      }
    }

    /** Turns the one-element form into the full map, so a second subscript can be written. */
    method Promote()
      requires Valid()
      modifies `indexed, `scalar
      ensures Valid() && indexed.Some? && Elements() == old(Elements())
    {
      if indexed.None? {
        indexed := Some(map[]);
        if scalar.Some? {
          indexed := Some(map[0 := scalar.value]);
          scalar := None;
        }
      }
    }

    method Clone() returns (clone: ShellVariable)
      requires Valid()
      ensures fresh(clone) && clone.Valid() && clone.letters == letters && clone.Contents() == Contents()
    {
      clone := new ShellVariable(letters, attributes);
      clone.scalar := scalar;
      clone.indexed := indexed;
      clone.associative := associative;
    }
  }

  // ---- what the map promises ----

  /**
   Writing an element and reading it back gives the value, except where a subscript below -1
   is written to an empty array: that lands at the negative subscript itself, which a read
   then counts from.
   */
  lemma ReadBack(c: Contents, l: Letters, index: int, value: string)
    requires !c.attributes.associativeArray
    ensures Element(WithIndexed(c, l, index, value), Subscript("", Some(index))) == Some(Cased(c.attributes, l, value))
            <==> !(c.elements == map[] && index < -1)
  {
    var after := WithIndexed(c, l, index, value);
    var place := Resolve(c.elements, index);
    if index < 0 {
      if c.elements == map[] {
        NextOfNone();
        NextIs(after.elements, place);
      } else {
        var h := HighestExists(c.elements);
        NextIs(c.elements, h);
        NextIs(after.elements, h);
      }
    }
  }

  /** A filled array holds each value at its subscript, and what it does not reach is as before. */
  lemma {:induction false} FilledAt(elements: map<int, string>, next: int, values: seq<string>, k: int)
    ensures k in Filled(elements, next, values) <==> k in elements || next <= k < next + |values|
    ensures next <= k < next + |values| ==> Filled(elements, next, values)[k] == values[k - next]
    ensures k in elements && !(next <= k < next + |values|) ==> Filled(elements, next, values)[k] == elements[k]
    decreases |values|
  {
    if values != [] {
      FilledAt(elements[next := values[0]], next + 1, values[1..], k);
    }
  }

  /** `x=(...)` and then `x+=(...)` is `x=(... ...)`. */
  lemma AppendedArray(c: Contents, l: Letters, a: seq<string>, b: seq<string>)
    ensures WithAppended(WithArray(c, l, a), l, b) == WithArray(c, l, a + b)
  {
    var attributes := c.attributes.(indexedArray := true);
    var first := WithArray(c, l, a);
    assert CasedAll(c.attributes, l, a) == CasedAll(attributes, l, a);
    assert CasedAll(c.attributes, l, a + b) == CasedAll(c.attributes, l, a) + CasedAll(attributes, l, b);
    var end := |a|;
    forall k ensures k in first.elements <==> 0 <= k < end {
      FilledAt(map[], 0, CasedAll(c.attributes, l, a), k);
    }
    if a == [] {
      assert first.elements == map[];
      NextOfNone();
    } else {
      NextIs(first.elements, end - 1);
    }
    FilledConcat(map[], 0, CasedAll(c.attributes, l, a), CasedAll(attributes, l, b));
  }

  lemma {:induction false} FilledConcat(elements: map<int, string>, next: int, a: seq<string>, b: seq<string>)
    ensures Filled(elements, next, a + b) == Filled(Filled(elements, next, a), next + |a|, b)
    decreases |a|
  {
    if a == [] {
      assert a + b == b;
    } else {
      assert (a + b)[1..] == a[1..] + b;
      FilledConcat(elements[next := a[0]], next + 1, a[1..], b);
    }
  }

  /** A scalar assignment to an indexed array writes element 0 and leaves the rest. */
  lemma ScalarKeepsTheRest(c: Contents, l: Letters, value: string, k: int)
    requires c.attributes.indexedArray && !c.attributes.associativeArray && k != 0
    ensures First(WithScalar(c, l, value)) == Some(Cased(c.attributes, l, value))
    ensures k >= 0 ==> Element(WithScalar(c, l, value), Subscript("", Some(k))) == Element(c, Subscript("", Some(k)))
  {}

  /** A scalar assignment reads back, whatever the variable was. */
  lemma ScalarReadsBack(c: Contents, l: Letters, value: string)
    ensures First(WithScalar(c, l, value)) == Some(Cased(c.attributes, l, value))
    ensures WithScalar(c, l, value).attributes == c.attributes
    ensures !c.attributes.associativeArray && !c.attributes.indexedArray ==> WithScalar(c, l, value).elements.Keys == {0}
  {}

  /** An unset takes the element the subscript means, which is then read no more, and every other stays. */
  lemma UnsetTakesTheElement(c: Contents, s: Subscript, k: int)
    requires k >= 0
    ensures var after := WithoutElement(c, s);
            && after.attributes == c.attributes
            && (c.attributes.associativeArray ==>
                  && Element(after, s) == None
                  && forall other: Subscript :: other.text != s.text ==> Element(after, other) == Element(c, other))
            && (!c.attributes.associativeArray && s.number.Some? ==>
                  Element(after, Subscript("", Some(k))) == if k == Resolve(c.elements, s.number.value) then None else Element(c, Subscript("", Some(k))))
            && (!c.attributes.associativeArray && s.number.None? ==> after == c)
  {}

  /** A subscript below nought counts from one past the highest in use. */
  lemma NegativeCountsBack(elements: map<int, string>, h: int, k: int)
    requires IsHighest(elements, h) && k < 0
    ensures Resolve(elements, k) == h + 1 + k && Resolve(elements, -1) == h
  {
    NextIs(elements, h);
  }

  /** Writing one element leaves every other as it is. */
  lemma IndexedKeepsTheRest(c: Contents, l: Letters, index: int, value: string, k: int)
    requires !c.attributes.associativeArray && k >= 0 && k != Resolve(c.elements, index)
    ensures Element(WithIndexed(c, l, index, value), Subscript("", Some(k))) == Element(c, Subscript("", Some(k)))
    ensures WithIndexed(c, l, index, value).entries == c.entries
  {}

  /** Values are appended after the highest subscript in use, in order, and the gaps below it stay. */
  lemma AppendsAfterTheHighest(c: Contents, l: Letters, values: seq<string>, h: int, k: int)
    requires IsHighest(c.elements, h)
    ensures var after := WithAppended(c, l, values).elements;
            && (k in after <==> k in c.elements || h < k <= h + |values|)
            && (k in c.elements ==> after[k] == c.elements[k])
            && (h < k <= h + |values| ==> after[k] == Cased(c.attributes, l, values[k - h - 1]))
  {
    NextIs(c.elements, h);
    FilledAt(c.elements, h + 1, CasedAll(c.attributes, l, values), k);
  }
}
