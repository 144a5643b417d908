/**
 Merging configuration documents (`deepMerge`, src/config/config_merge.cpp): tables merge key by
 key, non-empty arrays of tables (rule collections) accumulate, everything else is replaced.
 */
module TableMerge {
  datatype Node = Table(entries: Document) | Array(elements: seq<Node>) | Scalar(text: string)

  type Document = map<string, Node>

  predicate HoldsOnlyTables(elements: seq<Node>) {
    forall element <- elements :: element.Table?
  }

  function MergeNode(base: Node, overlay: Node): Node
    decreases overlay, 1
  {
    if base.Table? && overlay.Table? then Table(Merge(base.entries, overlay.entries))
    else if && base.Array? && overlay.Array? && overlay.elements != []
            && HoldsOnlyTables(base.elements) && HoldsOnlyTables(overlay.elements)
    then Array(base.elements + overlay.elements)
    else overlay
  }

  function Merge(base: Document, overlay: Document): (merged: Document)
    ensures merged.Keys == base.Keys + overlay.Keys
    decreases Table(overlay), 0
  {
    map key | key in base.Keys + overlay.Keys ::
      if key !in overlay then base[key]
      else if key !in base then overlay[key]
      else MergeNode(base[key], overlay[key])
  }

  /** The merge as it runs, one overlay key after another. */
  method DeepMerge(base: Document, overlay: Document) returns (merged: Document)
    ensures merged == Merge(base, overlay)
    decreases Table(overlay)
  {
    merged := base;
    var keys := overlay.Keys;
    while keys != {}
      invariant keys <= overlay.Keys
      invariant merged.Keys == base.Keys + (overlay.Keys - keys)
      invariant forall key <- merged ::
        merged[key] == if key in keys || key !in overlay then base[key] else Merge(base, overlay)[key]
    {
      var key :| key in keys;
      keys := keys - {key};
      var value := overlay[key];
      if value.Table? {
        if key in merged && merged[key].Table? {
          var inner := DeepMerge(merged[key].entries, value.entries);
          merged := merged[key := Table(inner)];
          continue;
        }
      } else if value.Array? && value.elements != [] {
        if key in merged {
          var existing := merged[key];
          if existing.Array? && HoldsOnlyTables(existing.elements) && HoldsOnlyTables(value.elements) {
            merged := merged[key := Array(existing.elements + value.elements)];
            continue;
          }
        }
      }
      merged := merged[key := value];
    }
  }

  // ---------------------------------------------------------------- kinds

  /** How a value takes part in merging. An empty or mixed array behaves like a plain value. */
  datatype Kind = TableKind | RulesKind | PlainKind

  function KindOf(node: Node): Kind {
    if node.Table? then TableKind
    else if node.Array? && node.elements != [] && forall i | 0 <= i < |node.elements| :: node.elements[i].Table?
    then RulesKind
    else PlainKind
  }

  lemma MergeByKind(base: Node, overlay: Node)
    ensures KindOf(MergeNode(base, overlay)) == KindOf(overlay)
    ensures MergeNode(base, overlay) ==
            match (KindOf(base), KindOf(overlay))
            case (TableKind, TableKind) => Table(Merge(base.entries, overlay.entries))
            case (RulesKind, RulesKind) => Array(base.elements + overlay.elements)
            case _ => overlay
  {
    if base.Array? && overlay.Array? && base.elements == [] {
      assert base.elements + overlay.elements == overlay.elements;
    }
  }

  // ---------------------------------------------------------------- algebra

  /** The empty document is a two-sided identity. */
  lemma EmptyIsIdentity(document: Document)
    ensures Merge(map[], document) == document && Merge(document, map[]) == document
  {
  }

  /** Every table under `base` is under `overlay` too, and nothing there accumulates. */
  predicate Absorbed(base: Node, overlay: Node)
    decreases overlay
  {
    match (KindOf(base), KindOf(overlay))
    case (TableKind, TableKind) =>
      forall key <- base.entries :: key in overlay.entries && Absorbed(base.entries[key], overlay.entries[key])
    case (RulesKind, RulesKind) => false
    case _ => true
  }

  lemma {:induction false} AbsorbedExactly(base: Node, overlay: Node)
    ensures Absorbed(base, overlay) <==> MergeNode(base, overlay) == overlay
    decreases overlay
  {
    MergeByKind(base, overlay);
    if base.Table? && overlay.Table? {
      var merged := Merge(base.entries, overlay.entries);
      forall key | key in base.entries && key in overlay.entries
        ensures Absorbed(base.entries[key], overlay.entries[key]) <==> merged[key] == overlay.entries[key]
      {
        AbsorbedExactly(base.entries[key], overlay.entries[key]);
      }
      if merged == overlay.entries {
        assert forall key <- base.entries :: key in merged;
      }
    } else if KindOf(base).RulesKind? && KindOf(overlay).RulesKind? {
      assert |base.elements + overlay.elements| > |overlay.elements|;
    }
  }

  /**
   No value of another kind comes between two that would have combined: between two rule
   collections there is a rule collection, and between two tables there is a table, unless
   combining them would have changed nothing.
   */
  predicate NoReset(first: Node, middle: Node, last: Node)
    decreases last
  {
    match (KindOf(first), KindOf(last))
    case (RulesKind, RulesKind) => KindOf(middle).RulesKind?
    case (TableKind, TableKind) =>
      if middle.Table? then
        forall key | key in first.entries && key in middle.entries && key in last.entries ::
          NoReset(first.entries[key], middle.entries[key], last.entries[key])
      else Absorbed(first, last)
    case _ => true
  }

  /** Grouping matters exactly when a reset intervenes. */
  lemma {:induction false} AssociativeExactly(first: Node, middle: Node, last: Node)
    ensures NoReset(first, middle, last)
        <==> MergeNode(MergeNode(first, middle), last) == MergeNode(first, MergeNode(middle, last))
    decreases last
  {
    var left, right := MergeNode(first, middle), MergeNode(middle, last);
    MergeByKind(first, middle);
    MergeByKind(middle, last);
    MergeByKind(left, last);
    MergeByKind(first, right);
    if KindOf(first).TableKind? && KindOf(last).TableKind? {
      if middle.Table? {
        var l, r := Merge(left.entries, last.entries), Merge(first.entries, right.entries);
        assert l.Keys == r.Keys;
        forall key | key in first.entries && key in middle.entries && key in last.entries
          ensures NoReset(first.entries[key], middle.entries[key], last.entries[key]) <==> l[key] == r[key]
        {
          AssociativeExactly(first.entries[key], middle.entries[key], last.entries[key]);
        }
        forall key | key in l && !(key in first.entries && key in middle.entries && key in last.entries)
          ensures l[key] == r[key]
        {
        }
      } else {
        AbsorbedExactly(first, last);
      }
    } else if KindOf(first).RulesKind? && KindOf(last).RulesKind? {
      if KindOf(middle).RulesKind? {
        assert first.elements + middle.elements + last.elements == first.elements + (middle.elements + last.elements);
      } else {
        assert |first.elements + last.elements| > |last.elements|;
      }
    }
  }

  const ONE_RULE := Array([Table(map[])])

  /** A middle `[]` drops the earlier rules in one grouping and keeps them in the other. */
  lemma EmptyArrayResets()
    ensures var rules, reset: Document := map["rule" := ONE_RULE], map["rule" := Array([])];
            && Merge(Merge(rules, reset), rules) == rules
            && Merge(rules, Merge(reset, rules)) == map["rule" := Array([Table(map[]), Table(map[])])]
  {
    var rules, reset: Document := map["rule" := ONE_RULE], map["rule" := Array([])];
    MergeByKind(ONE_RULE, Array([]));
    MergeByKind(Array([]), ONE_RULE);
    MergeByKind(ONE_RULE, ONE_RULE);
    assert [Table(map[])] + [Table(map[])] == [Table(map[]), Table(map[])];
    assert Merge(rules, reset)["rule"] == Array([]);
    assert Merge(reset, rules)["rule"] == ONE_RULE;
  }

  // ---------------------------------------------------------------- kind-stable documents

  /** Wherever both documents have a value, it is of one kind. */
  predicate Compatible(one: Node, other: Node)
    decreases other
  {
    && KindOf(one) == KindOf(other)
    && (one.Table? && other.Table? ==>
          forall key | key in one.entries && key in other.entries :: Compatible(one.entries[key], other.entries[key]))
  }

  lemma {:induction false} CompatibleSymmetric(one: Node, other: Node)
    requires Compatible(one, other)
    ensures Compatible(other, one)
    decreases other
  {
    if !one.Table? {
    } else {
      forall key | key in one.entries && key in other.entries ensures Compatible(other.entries[key], one.entries[key]) {
        CompatibleSymmetric(one.entries[key], other.entries[key]);
      }
    }
  }

  lemma {:induction false} MergeStaysCompatible(one: Node, two: Node, other: Node)
    requires Compatible(one, two) && Compatible(one, other) && Compatible(two, other)
    ensures Compatible(MergeNode(one, two), other)
    decreases other
  {
    MergeByKind(one, two);
    if !one.Table? {
    } else {
      var merged := Merge(one.entries, two.entries);
      forall key | key in merged && key in other.entries ensures Compatible(merged[key], other.entries[key]) {
        if key in one.entries && key in two.entries {
          MergeStaysCompatible(one.entries[key], two.entries[key], other.entries[key]);
        }
      }
    }
  }

  lemma {:induction false} CompatibleMeansNoReset(first: Node, middle: Node, last: Node)
    requires Compatible(first, middle) && Compatible(middle, last) && Compatible(first, last)
    ensures NoReset(first, middle, last)
    decreases last
  {
    if !first.Table? {
    } else {
      forall key | key in first.entries && key in middle.entries && key in last.entries
        ensures NoReset(first.entries[key], middle.entries[key], last.entries[key])
      {
        CompatibleMeansNoReset(first.entries[key], middle.entries[key], last.entries[key]);
      }
    }
  }

  ghost predicate KindStable(documents: seq<Document>) {
    forall i, j :: 0 <= i < j < |documents| ==> Compatible(Table(documents[i]), Table(documents[j]))
  }

  /** Documents merged left to right, later ones on top. */
  function Fold(documents: seq<Document>): Document {
    if documents == [] then map[]
    else Merge(Fold(documents[..|documents| - 1]), documents[|documents| - 1])
  }

  lemma {:induction false} FoldCompatible(documents: seq<Document>, other: Document)
    requires KindStable(documents)
    requires forall document <- documents :: Compatible(Table(document), Table(other))
    ensures Compatible(Table(Fold(documents)), Table(other))
  {
    if documents == [] {
    } else {
      var front, last := documents[..|documents| - 1], documents[|documents| - 1];
      FoldCompatible(front, other);
      FoldCompatible(front, last);
      MergeStaysCompatible(Table(Fold(front)), Table(last), Table(other));
    }
  }

  lemma FoldsCompatible(front: seq<Document>, back: seq<Document>)
    requires KindStable(front) && KindStable(back)
    requires forall one, other | one in front && other in back :: Compatible(Table(one), Table(other))
    ensures Compatible(Table(Fold(front)), Table(Fold(back)))
  {
    forall one <- front ensures Compatible(Table(one), Table(Fold(back))) {
      forall other <- back ensures Compatible(Table(other), Table(one)) {
        CompatibleSymmetric(Table(one), Table(other));
      }
      FoldCompatible(back, one);
      CompatibleSymmetric(Table(Fold(back)), Table(one));
    }
    FoldCompatible(front, Fold(back));
  }

  lemma KindStableParts(front: seq<Document>, back: seq<Document>)
    requires KindStable(front + back)
    ensures KindStable(front) && KindStable(back)
    ensures forall one, other | one in front && other in back :: Compatible(Table(one), Table(other))
  {
    var all := front + back;
    assert forall i :: 0 <= i < |front| ==> all[i] == front[i];
    assert forall i :: 0 <= i < |back| ==> all[|front| + i] == back[i];
  }

  /** A kind-stable run of documents may be merged in any grouping. */
  lemma {:induction false} FoldSplit(front: seq<Document>, back: seq<Document>)
    requires KindStable(front + back)
    ensures Fold(front + back) == Merge(Fold(front), Fold(back))
  {
    var all := front + back;
    if back == [] {
      assert all == front;
      EmptyIsIdentity(Fold(front));
    } else {
      var backFront, last := back[..|back| - 1], back[|back| - 1];
      assert all[..|all| - 1] == front + backFront;
      FoldSplit(front, backFront);
      KindStableParts(front, back);
      FoldsCompatible(front, backFront);
      FoldCompatible(front, last);
      FoldCompatible(backFront, last);
      CompatibleMeansNoReset(Table(Fold(front)), Table(Fold(backFront)), Table(last));
      AssociativeExactly(Table(Fold(front)), Table(Fold(backFront)), Table(last));
    }
  }

  /** A plain value stands as the last document to have its key has it, whatever the others have there. */
  lemma {:induction false} LastPlainWins(documents: seq<Document>, key: string, i: nat)
    requires i < |documents| && key in documents[i] && KindOf(documents[i][key]).PlainKind?
    requires forall j | i < j < |documents| :: key !in documents[j]
    ensures key in Fold(documents) && Fold(documents)[key] == documents[i][key]
    decreases |documents|
  {
    var earlier, last := Fold(documents[..|documents| - 1]), documents[|documents| - 1];
    if i == |documents| - 1 {
      if key in earlier {
        MergeByKind(earlier[key], last[key]);
      }
    } else {
      LastPlainWins(documents[..|documents| - 1], key, i);
      assert key !in last;
    }
  }

  // ---------------------------------------------------------------- rule collections

  /** The rules a document holds at a path of table keys; none unless a rule collection is there. */
  function RulesAt(document: Document, path: seq<string>): seq<Node>
    decreases |path|
  {
    if path == [] || path[0] !in document then []
    else
      var node := document[path[0]];
      if |path| == 1 then (if KindOf(node).RulesKind? then node.elements else [])
      else if node.Table? then RulesAt(node.entries, path[1..])
      else []
  }

  lemma {:induction false} MergeConcatenatesRules(base: Document, overlay: Document, path: seq<string>)
    requires Compatible(Table(base), Table(overlay))
    ensures RulesAt(Merge(base, overlay), path) == RulesAt(base, path) + RulesAt(overlay, path)
    decreases |path|
  {
    if path == [] || path[0] !in base || path[0] !in overlay {
    } else {
      var b, o := base[path[0]], overlay[path[0]];
      MergeByKind(b, o);
      if b.Table? && |path| > 1 {
        MergeConcatenatesRules(b.entries, o.entries, path[1..]);
      }
    }
  }

  function RulesOfAll(documents: seq<Document>, path: seq<string>): seq<Node> {
    if documents == [] then []
    else RulesOfAll(documents[..|documents| - 1], path) + RulesAt(documents[|documents| - 1], path)
  }

  /** At every depth, rules appear in merge order and none is lost. */
  lemma {:induction false} FoldConcatenatesRules(documents: seq<Document>, path: seq<string>)
    requires KindStable(documents)
    ensures RulesAt(Fold(documents), path) == RulesOfAll(documents, path)
  {
    if documents == [] {
    } else {
      var front, last := documents[..|documents| - 1], documents[|documents| - 1];
      FoldConcatenatesRules(front, path);
      FoldCompatible(front, last);
      MergeConcatenatesRules(Fold(front), last, path);
    }
  }
}
