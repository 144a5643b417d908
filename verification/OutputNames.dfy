/**
 How a configured output name refers to a physical output (src/output/identity.cpp).

 A name is a connector ("DP-1") or a descriptor ("<make> <model> <serial>"), compared without
 regard to ASCII case. The point of this module is that the comparison behaves like equality of
 names: matching depends only on the class of a name, and one output answers to at most one
 class as a connector and at most one as a descriptor.
 */
module OutputNames {
  datatype Identity = Identity(connector: string, make: string, model: string, serial: string)

  datatype NameMatch = NoMatch | Connector | Descriptor

  function LowerAscii(c: char): char {
    if 'A' <= c <= 'Z' then (c as int - 'A' as int + 'a' as int) as char else c
  }

  function Folded(name: string): (folded: string)
    ensures |folded| == |name|
  {
    if name == "" then "" else [LowerAscii(name[0])] + Folded(name[1..])
  }

  /** The two names are the same up to ASCII case. */
  predicate NamesEqual(left: string, right: string) {
    Folded(left) == Folded(right)
  }

  method OutputNamesEqual(left: string, right: string) returns (equal: bool)
    ensures equal == NamesEqual(left, right)
  {
    if |left| != |right| {
      return false;
    }
    for index := 0 to |left|
      invariant NamesEqual(left[..index], right[..index])
    {
      FoldedConcat(left[..index], [left[index]]);
      FoldedConcat(right[..index], [right[index]]);
      assert left[..index + 1] == left[..index] + [left[index]];
      assert right[..index + 1] == right[..index] + [right[index]];
      if LowerAscii(left[index]) != LowerAscii(right[index]) {
        EqualByParts(left[..index + 1], right[..index + 1], left[index + 1..], right[index + 1..]);
        assert left == left[..index + 1] + left[index + 1..];
        assert right == right[..index + 1] + right[index + 1..];
        assert Folded([left[index]])[0] != Folded([right[index]])[0];
        EqualByParts(left[..index], right[..index], [left[index]], [right[index]]);
        return false;
      }
    }
    assert left[..|left|] == left && right[..|right|] == right;
    return true;
  }

  /** The same letter in either case, or the same character. */
  predicate SameLetter(c: char, d: char) {
    c == d || ('A' <= c <= 'Z' && d as int == c as int + 32) || ('A' <= d <= 'Z' && c as int == d as int + 32)
  }

  /** Names are equal exactly when they agree letter by letter, the case of ASCII letters aside. */
  lemma {:induction false} EqualLetterByLetter(left: string, right: string)
    ensures NamesEqual(left, right)
        <==> |left| == |right| && forall i :: 0 <= i < |left| ==> SameLetter(left[i], right[i])
  {
    if |left| != |right| {
      assert |Folded(left)| != |Folded(right)|;
    } else if left == "" {
    } else {
      EqualLetterByLetter(left[1..], right[1..]);
      EqualByParts([left[0]], [right[0]], left[1..], right[1..]);
      assert left == [left[0]] + left[1..] && right == [right[0]] + right[1..];
      assert NamesEqual([left[0]], [right[0]]) <==> SameLetter(left[0], right[0]) by {
        assert Folded([left[0]])[0] == LowerAscii(left[0]) && Folded([right[0]])[0] == LowerAscii(right[0]);
      }
      assert forall i :: 0 <= i < |left| - 1 ==> left[1..][i] == left[i + 1] && right[1..][i] == right[i + 1];
      assert (forall i :: 0 <= i < |left| - 1 ==> SameLetter(left[1..][i], right[1..][i]))
        <==> (forall i :: 1 <= i < |left| ==> SameLetter(left[i], right[i])) by {
        if forall i :: 0 <= i < |left| - 1 ==> SameLetter(left[1..][i], right[1..][i]) {
          forall i | 1 <= i < |left| ensures SameLetter(left[i], right[i]) {
            assert left[1..][i - 1] == left[i] && right[1..][i - 1] == right[i];
          }
        }
      }
    }
  }

  function OrUnknown(value: string): string {
    if value == "" then "Unknown" else value
  }

  function OutputDescriptor(identity: Identity): string {
    OrUnknown(identity.make) + " " + OrUnknown(identity.model) + " " + OrUnknown(identity.serial)
  }

  predicate DescriptorEquals(identity: Identity, configured: string) {
    FieldsEqual(OrUnknown(identity.make), OrUnknown(identity.model), OrUnknown(identity.serial), configured)
  }

  predicate FieldsEqual(make: string, model: string, serial: string, configured: string) {
    var modelOffset := |make| + 1;
    var serialOffset := modelOffset + |model| + 1;
    && |configured| == |make| + |model| + |serial| + 2
    && configured[|make|] == ' '
    && configured[serialOffset - 1] == ' '
    && NamesEqual(configured[..|make|], make)
    && NamesEqual(configured[modelOffset..modelOffset + |model|], model)
    && NamesEqual(configured[serialOffset..], serial)
  }

  function OutputNameMatch(identity: Identity, configured: string): NameMatch {
    if identity.connector != "" && NamesEqual(configured, identity.connector) then Connector
    else if identity.make == "" && identity.model == "" && identity.serial == "" then NoMatch
    else if DescriptorEquals(identity, configured) then Descriptor
    else NoMatch
  }

  lemma {:induction false} FoldedConcat(left: string, right: string)
    ensures Folded(left + right) == Folded(left) + Folded(right)
  {
    if left == "" {
      assert left + right == right;
    } else {
      assert (left + right)[1..] == left[1..] + right;
      FoldedConcat(left[1..], right);
    }
  }

  /** Comparison splits wherever both names are cut at the same place. */
  lemma EqualByParts(left: string, right: string, tailLeft: string, tailRight: string)
    requires |left| == |right|
    ensures NamesEqual(left + tailLeft, right + tailRight)
        <==> NamesEqual(left, right) && NamesEqual(tailLeft, tailRight)
  {
    FoldedConcat(left, tailLeft);
    FoldedConcat(right, tailRight);
    var l, r := Folded(left + tailLeft), Folded(right + tailRight);
    assert l[..|left|] == Folded(left) && l[|left|..] == Folded(tailLeft);
    assert r[..|left|] == Folded(right) && r[|left|..] == Folded(tailRight);
  }

  lemma SpaceIsItsOwnClass(separator: char)
    ensures NamesEqual([separator], " ") <==> separator == ' '
  {
    assert Folded([separator])[0] == LowerAscii(separator) && Folded(" ")[0] == ' ';
  }

  lemma DescriptorByFields(make': string, x: char, model': string, y: char, serial': string,
                           make: string, model: string, serial: string)
    requires |make'| == |make| && |model'| == |model|
    ensures NamesEqual(make' + [x] + model' + [y] + serial', make + " " + model + " " + serial)
        <==> && NamesEqual(make', make) && x == ' ' && NamesEqual(model', model)
             && y == ' ' && NamesEqual(serial', serial)
  {
    EqualByParts(make' + [x] + model' + [y], make + " " + model + " ", serial', serial);
    EqualByParts(make' + [x] + model', make + " " + model, [y], " ");
    EqualByParts(make' + [x], make + " ", model', model);
    EqualByParts(make', make, [x], " ");
    SpaceIsItsOwnClass(x);
    SpaceIsItsOwnClass(y);
  }

  lemma FieldsSpelling(make: string, model: string, serial: string, configured: string)
    ensures FieldsEqual(make, model, serial, configured)
        <==> NamesEqual(configured, make + " " + model + " " + serial)
  {
    if |configured| == |make| + |model| + |serial| + 2 {
      var m, s := |make| + 1, |make| + |model| + 2;
      SplitDescriptor(configured, |make|, |model|);
      DescriptorByFields(configured[..|make|], configured[|make|], configured[m..m + |model|],
                         configured[s - 1], configured[s..], make, model, serial);
    } else {
      assert |Folded(configured)| != |Folded(make + " " + model + " " + serial)|;
    }
  }

  /** The field-by-field comparison accepts exactly the spellings of the printed descriptor. */
  lemma DescriptorSpelling(identity: Identity, configured: string)
    ensures DescriptorEquals(identity, configured)
        <==> NamesEqual(configured, OutputDescriptor(identity))
  {
    FieldsSpelling(OrUnknown(identity.make), OrUnknown(identity.model), OrUnknown(identity.serial), configured);
  }

  lemma SplitDescriptor(configured: string, make: nat, model: nat)
    requires make + model + 2 <= |configured|
    ensures configured == configured[..make] + [configured[make]]
                        + configured[make + 1..make + 1 + model]
                        + [configured[make + model + 1]] + configured[make + model + 2..]
  {
  }

  /** Spelling variants of one name match an output in the same way. */
  lemma MatchRespectsNames(identity: Identity, left: string, right: string)
    requires NamesEqual(left, right)
    ensures OutputNameMatch(identity, left) == OutputNameMatch(identity, right)
  {
    DescriptorSpelling(identity, left);
    DescriptorSpelling(identity, right);
  }

  /** Names that match one output in the same form are spellings of one name. */
  lemma MatchIsUnique(identity: Identity, left: string, right: string)
    requires OutputNameMatch(identity, left) == OutputNameMatch(identity, right)
    requires !OutputNameMatch(identity, left).NoMatch?
    ensures NamesEqual(left, right)
  {
    DescriptorSpelling(identity, left);
    DescriptorSpelling(identity, right);
  }

  /** How one field of a descriptor is shown. */
  predicate Shows(value: string, shown: string) {
    shown == value != "" || (value == "" && shown == "Unknown")
  }

  ghost predicate IsDescriptor(identity: Identity, name: string) {
    exists make, model, serial ::
      && Shows(identity.make, make) && Shows(identity.model, model) && Shows(identity.serial, serial)
      && NamesEqual(name, make + " " + model + " " + serial)
  }

  /** The connector is asked first; the printed descriptor counts only when the output reported something. */
  lemma MatchExactly(identity: Identity, configured: string)
    ensures OutputNameMatch(identity, configured) == Connector <==>
      identity.connector != "" && NamesEqual(configured, identity.connector)
    ensures OutputNameMatch(identity, configured) == Descriptor <==>
      && !(identity.connector != "" && NamesEqual(configured, identity.connector))
      && !(identity.make == "" && identity.model == "" && identity.serial == "")
      && IsDescriptor(identity, configured)
  {
    DescriptorSpelling(identity, configured);
    assert Shows(identity.make, OrUnknown(identity.make)) && Shows(identity.model, OrUnknown(identity.model))
           && Shows(identity.serial, OrUnknown(identity.serial));
  }
}
