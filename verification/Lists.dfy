/** Appending to a list only what it does not hold yet. */
module Lists {
  lemma Regroup<T>(a: seq<T>, b: seq<T>, c: seq<T>)
    ensures a + b + c == a + (b + c)
  {
  }

  /** Every element once, in order of first appearance. */
  function Unique<T(==)>(elements: seq<T>): seq<T> {
    if elements == [] then []
    else
      var last, earlier := elements[|elements| - 1], Unique(elements[..|elements| - 1]);
      if last in earlier then earlier else earlier + [last]
  }

  /** Nothing is lost and nothing is repeated. */
  lemma {:induction false} UniqueMembers<T>(elements: seq<T>)
    ensures forall i :: 0 <= i < |elements| ==> elements[i] in Unique(elements)
    ensures forall i :: 0 <= i < |Unique(elements)| ==> Unique(elements)[i] in elements
    ensures forall i, j :: 0 <= i < j < |Unique(elements)| ==> Unique(elements)[i] != Unique(elements)[j]
  {
    if elements == [] {
    } else {
      UniqueMembers(elements[..|elements| - 1]);
    }
  }

  lemma UniqueStep<T>(elements: seq<T>, last: T)
    ensures Unique(elements + [last])
         == if last in Unique(elements) then Unique(elements) else Unique(elements) + [last]
  {
    assert (elements + [last])[..|elements|] == elements;
  }

  /** The next step of a loop that appends the elements of `more` one by one. */
  lemma UniqueNext<T>(before: seq<T>, more: seq<T>, i: nat)
    requires i < |more|
    ensures var done := Unique(before + more[..i]);
            Unique(before + more[..i + 1]) == if more[i] in done then done else done + [more[i]]
  {
    UniqueStep(before + more[..i], more[i]);
    assert before + more[..i] + [more[i]] == before + more[..i + 1];
  }

  /** Appending in stages is appending at once. */
  lemma {:induction false} UniqueAppend<T>(front: seq<T>, back: seq<T>)
    ensures Unique(Unique(front) + back) == Unique(front + back)
  {
    if back == [] {
      assert Unique(front) + back == Unique(front) && front + back == front;
      UniqueMembers(front);
      UniqueOfDistinct(Unique(front));
    } else {
      var backFront, last := back[..|back| - 1], back[|back| - 1];
      UniqueAppend(front, backFront);
      assert front + back == front + backFront + [last];
      assert Unique(front) + back == Unique(front) + backFront + [last];
      UniqueStep(front + backFront, last);
      UniqueStep(Unique(front) + backFront, last);
    }
  }

  lemma {:induction false} UniqueOfDistinct<T>(elements: seq<T>)
    requires forall i, j :: 0 <= i < j < |elements| ==> elements[i] != elements[j]
    ensures Unique(elements) == elements
  {
    if elements == [] {
    } else {
      UniqueOfDistinct(elements[..|elements| - 1]);
    }
  }

  /** Some element occurs twice. */
  predicate Repeats<T(==)>(elements: seq<T>) {
    |Unique(elements)| < |elements|
  }

  lemma {:induction false} UniqueIsNoLonger<T>(front: seq<T>, back: seq<T>)
    ensures |Unique(front + back)| <= |Unique(front)| + |back|
  {
    if back == [] {
      assert front + back == front;
    } else {
      var backFront, last := back[..|back| - 1], back[|back| - 1];
      UniqueIsNoLonger(front, backFront);
      assert front + back == front + backFront + [last];
      UniqueStep(front + backFront, last);
    }
  }

  /** A repetition is found whether a list is built at once or in stages. */
  lemma RepeatsInStages<T>(front: seq<T>, back: seq<T>)
    ensures Repeats(front + back) <==> Repeats(front) || Repeats(Unique(front) + back)
  {
    UniqueAppend(front, back);
    UniqueIsNoLonger([], front);
    assert [] + front == front;
    UniqueIsNoLonger(front, back);
  }
}
