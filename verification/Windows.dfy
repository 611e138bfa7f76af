/**
  A window over a batch that belongs to several owners, compared with a window over the
  share of each owner.
 */
module Windows {
  import opened Store

  /** The elements of one owner, in order. */
  function Of<T>(key: T -> int, s: seq<T>, id: int): seq<T> {
    if s == [] then []
    else if key(s[0]) == id then [s[0]] + Of(key, s[1..], id)
    else Of(key, s[1..], id)
  }

  predicate OneOwner<T>(key: T -> int, s: seq<T>) {
    forall i :: 0 <= i < |s| ==> key(s[i]) == key(s[0])
  }

  /** The elements that the window has passed at its end. */
  function Head<T>(skip: nat, take: nat, s: seq<T>): seq<T> {
    if take == 0 || |s| <= skip + take then s else s[..skip + take]
  }

  /** No other owner than the first has more elements than are skipped. */
  predicate OthersSkipped<T>(key: T -> int, s: seq<T>, skip: nat) {
    forall i :: 0 <= i < |s| && key(s[i]) != key(s[0]) ==> |Of(key, s, key(s[i]))| <= skip
  }

  /** A batch whose window gives every owner the window of its own elements. */
  predicate Fair<T>(key: T -> int, s: seq<T>, skip: nat, take: nat) {
    if skip == 0 then take == 0 || |s| <= take || OneOwner(key, s)
    else |s| <= skip || (OneOwner(key, Head(skip, take, s)) && OthersSkipped(key, s, skip))
  }

  predicate SameShare<T(==)>(key: T -> int, s: seq<T>, skip: nat, take: nat, id: int) {
    Of(key, Cut(skip, take, s), id) == Cut(skip, take, Of(key, s, id))
  }

  /******* The elements of one owner *******/

  lemma {:induction false} OfConcat<T(!new)>(key: T -> int, a: seq<T>, b: seq<T>, id: int)
    ensures Of(key, a + b, id) == Of(key, a, id) + Of(key, b, id)
  {
    if a == [] {
      assert a + b == b;
    } else {
      assert (a + b)[1..] == a[1..] + b;
      OfConcat(key, a[1..], b, id);
    }
  }

  lemma {:induction false} OfLength<T(!new)>(key: T -> int, s: seq<T>, id: int)
    ensures |Of(key, s, id)| <= |s|
    ensures |Of(key, s, id)| == |s| ==> forall i :: 0 <= i < |s| ==> key(s[i]) == id
  {
    if s != [] {
      OfLength(key, s[1..], id);
      assert forall i :: 1 <= i < |s| ==> s[1..][i - 1] == s[i];
    }
  }

  lemma {:induction false} OfUniform<T(!new)>(key: T -> int, s: seq<T>, owner: int, id: int)
    requires forall i :: 0 <= i < |s| ==> key(s[i]) == owner
    ensures Of(key, s, id) == if id == owner then s else []
  {
    if s != [] {
      OfUniform(key, s[1..], owner, id);
      assert s == [s[0]] + s[1..];
    }
  }

  lemma {:induction false} OfMembers<T(!new)>(key: T -> int, s: seq<T>, id: int)
    ensures forall x :: x in Of(key, s, id) <==> x in s && key(x) == id
  {
    if s != [] {
      OfMembers(key, s[1..], id);
      assert s == [s[0]] + s[1..];
    }
  }

  lemma OfNone<T(!new)>(key: T -> int, s: seq<T>, id: int)
    ensures Of(key, s, id) == [] <==> forall i :: 0 <= i < |s| ==> key(s[i]) != id
  {
    OfMembers(key, s, id);
    var kept := Of(key, s, id);
    if kept != [] {
      assert kept[0] in kept;
    }
    if i :| 0 <= i < |s| && key(s[i]) == id {
      assert s[i] in kept;
    }
  }

  lemma {:induction false} OfDistinct<T(!new)>(key: T -> int, s: seq<T>, id: int)
    requires Distinct(s)
    ensures Distinct(Of(key, s, id))
  {
    if s != [] {
      OfDistinct(key, s[1..], id);
      OfMembers(key, s[1..], id);
      var kept := Of(key, s[1..], id);
      forall i | 0 <= i < |kept| ensures kept[i] != s[0] {
        assert kept[i] in kept;
        assert kept[i] in s[1..];
      }
    }
  }

  /******* A fair batch *******/

  lemma FairShares<T(!new)>(key: T -> int, s: seq<T>, skip: nat, take: nat, id: int)
    requires Fair(key, s, skip, take)
    ensures SameShare(key, s, skip, take, id)
  {
    OfLength(key, s, id);
    if skip == 0 {
      assert s[0..] == s && Of(key, s, id)[0..] == Of(key, s, id);
      if take > 0 && |s| > take {
        OfUniform(key, s, key(s[0]), id);
        OfUniform(key, s[..take], key(s[0]), id);
      }
    } else if |s| > skip {
      FairAfterSkip(key, s, skip, take, id);
    }
  }

  lemma FairAfterSkip<T(!new)>(key: T -> int, s: seq<T>, skip: nat, take: nat, id: int)
    requires 0 < skip < |s| && OneOwner(key, Head(skip, take, s)) && OthersSkipped(key, s, skip)
    ensures SameShare(key, s, skip, take, id)
  {
    var head := Head(skip, take, s);
    var tail := s[|head|..];
    assert s == head + tail;
    CutOfHead(skip, take, head, tail);
    OfUniform(key, head[skip..], key(s[0]), id);
    if id == key(s[0]) {
      OfUniform(key, head, key(s[0]), id);
      OfConcat(key, head, tail, id);
      CutOfHead(skip, take, head, Of(key, tail, id));
    } else {
      OfNone(key, s, id);
    }
  }

  lemma CutOfHead<T(!new)>(skip: nat, take: nat, head: seq<T>, tail: seq<T>)
    requires skip <= |head| && (take > 0 ==> |head| <= skip + take)
    requires tail != [] ==> take > 0 && |head| == skip + take
    ensures Cut(skip, take, head + tail) == head[skip..]
  {
    if tail == [] {
      assert head + tail == head;
    } else {
      assert (head + tail)[skip..] == head[skip..] + tail;
    }
  }

  /******* A batch that gives every owner its window is fair *******/

  /** The owner of an element beyond the limit owns everything within the limit. */
  lemma BeyondLimit<T(!new)>(key: T -> int, s: seq<T>, take: nat, j: nat)
    requires 0 < take <= j < |s|
    requires |Of(key, Cut(0, take, s), key(s[j]))| == |Cut(0, take, Of(key, s, key(s[j])))|
    ensures forall i :: 0 <= i < take ==> key(s[i]) == key(s[j])
  {
    var id := key(s[j]);
    var head, tail := s[..take], s[take..];
    assert s == head + tail && Cut(0, take, s) == head;
    OfConcat(key, head, tail, id);
    OfNone(key, tail, id);
    assert tail[j - take] == s[j];
    OfLength(key, head, id);
    assert |Of(key, head, id)| == take;
  }

  lemma LimitIsFair<T(!new)>(key: T -> int, s: seq<T>, take: nat)
    requires take > 0
    requires forall i :: 0 <= i < |s| ==> |Of(key, Cut(0, take, s), key(s[i]))| == |Cut(0, take, Of(key, s, key(s[i])))|
    ensures Fair(key, s, 0, take)
  {
    if |s| > take {
      BeyondLimit(key, s, take, take);
      forall j | take <= j < |s| ensures key(s[j]) == key(s[0]) {
        BeyondLimit(key, s, take, j);
      }
    }
  }

  /** Everything skipped belongs to the owner of the first element that is not. */
  lemma SkippedBelong<T(!new)>(key: T -> int, s: seq<T>, skip: nat)
    requires 0 < skip < |s|
    requires |Of(key, Cut(skip, 0, s), key(s[skip]))| == |Cut(skip, 0, Of(key, s, key(s[skip])))|
    ensures forall i :: 0 <= i < skip ==> key(s[i]) == key(s[skip])
  {
    var id := key(s[skip]);
    var head, tail := s[..skip], s[skip..];
    assert s == head + tail;
    OfConcat(key, head, tail, id);
    OfNone(key, tail, id);
    assert tail[0] == s[skip];
    OfLength(key, head, id);
  }

  lemma OffsetIsFair<T(!new)>(key: T -> int, s: seq<T>, skip: nat)
    requires skip > 0
    requires forall i :: 0 <= i < |s| ==> |Of(key, Cut(skip, 0, s), key(s[i]))| == |Cut(skip, 0, Of(key, s, key(s[i])))|
    ensures Fair(key, s, skip, 0)
  {
    if |s| > skip {
      SkippedBelong(key, s, skip);
      var head, tail := s[..skip], s[skip..];
      assert s == head + tail;
      forall j | 0 <= j < |s| ensures key(s[j]) == key(s[0]) {
        if key(s[j]) != key(s[0]) {
          var id := key(s[j]);
          OfConcat(key, head, tail, id);
          OfUniform(key, head, key(s[0]), id);
          OfNone(key, s, id);
          assert false;
        }
      }
    }
  }

  /** The first element within the window stands at the same place among those of its owner. */
  lemma PlaceOfFirst<T(!new)>(key: T -> int, s: seq<T>, skip: nat, take: nat, j: nat)
    requires 0 < skip && 0 < take && skip <= j < |s| && j < skip + take && Distinct(s)
    requires forall i :: skip <= i < j ==> key(s[i]) != key(s[j])
    requires SameShare(key, s, skip, take, key(s[j]))
    ensures |Of(key, s[..skip], key(s[j]))| == skip
  {
    var id := key(s[j]);
    var pre, mid, rest := s[..skip], s[skip..j], s[j..];
    assert s == pre + (mid + rest);
    OfConcat(key, pre, mid + rest, id);
    OfConcat(key, mid, rest, id);
    OfNone(key, mid, id);
    assert Of(key, rest, id) == [s[j]] + Of(key, rest[1..], id);
    var own, c := Of(key, s, id), |Of(key, pre, id)|;
    assert own[c] == s[j];
    OfLength(key, pre, id);
    OfDistinct(key, s, id);
    FirstOfCut(key, s, skip, take, j);
    assert Cut(skip, take, own)[0] == s[j];
    assert own[skip] == s[j];
  }

  lemma FirstOfCut<T(!new)>(key: T -> int, s: seq<T>, skip: nat, take: nat, j: nat)
    requires 0 < take && skip <= j < |s| && j < skip + take
    requires forall i :: skip <= i < j ==> key(s[i]) != key(s[j])
    ensures var kept := Of(key, Cut(skip, take, s), key(s[j])); kept != [] && kept[0] == s[j]
  {
    var id, cut := key(s[j]), Cut(skip, take, s);
    var mid, rest := cut[..j - skip], cut[j - skip..];
    assert cut == mid + rest && rest[0] == s[j];
    OfConcat(key, mid, rest, id);
    OfNone(key, mid, id);
  }

  lemma WindowIsFair<T(!new)>(key: T -> int, s: seq<T>, skip: nat, take: nat)
    requires skip > 0 && take > 0 && Distinct(s)
    requires forall i :: 0 <= i < |s| ==> SameShare(key, s, skip, take, key(s[i]))
    ensures Fair(key, s, skip, take)
  {
    if |s| > skip {
      FirstOwnsSkipped(key, s, skip, take);
      var head := Head(skip, take, s);
      forall j | 0 <= j < |head| ensures key(head[j]) == key(head[0]) {
        if j >= skip {
          OnlyOneInWindow(key, s, skip, take, j);
        }
      }
      forall i | 0 <= i < |s| && key(s[i]) != key(s[0]) ensures |Of(key, s, key(s[i]))| <= skip {
        OtherIsSkipped(key, s, skip, take, key(s[i]));
      }
    }
  }

  lemma FirstOwnsSkipped<T(!new)>(key: T -> int, s: seq<T>, skip: nat, take: nat)
    requires 0 < skip < |s| && take > 0 && Distinct(s) && SameShare(key, s, skip, take, key(s[skip]))
    ensures forall i :: 0 <= i < skip ==> key(s[i]) == key(s[skip])
  {
    PlaceOfFirst(key, s, skip, take, skip);
    OfLength(key, s[..skip], key(s[skip]));
    assert forall i :: 0 <= i < skip ==> s[..skip][i] == s[i];
  }

  lemma OtherIsSkipped<T(!new)>(key: T -> int, s: seq<T>, skip: nat, take: nat, id: int)
    requires 0 < skip < |s| && OneOwner(key, Head(skip, take, s)) && id != key(s[0])
    requires SameShare(key, s, skip, take, id)
    ensures |Of(key, s, id)| <= skip
  {
    var head := Head(skip, take, s);
    assert s == head + s[|head|..];
    CutOfHead(skip, take, head, s[|head|..]);
    OfUniform(key, head[skip..], key(s[0]), id);
  }

  lemma {:induction false} OnlyOneInWindow<T(!new)>(key: T -> int, s: seq<T>, skip: nat, take: nat, j: nat)
    requires skip > 0 && take > 0 && Distinct(s) && skip <= j < |s| && j < skip + take
    requires forall i :: 0 <= i < |s| ==> SameShare(key, s, skip, take, key(s[i]))
    requires forall i :: 0 <= i < skip ==> key(s[i]) == key(s[skip])
    ensures key(s[j]) == key(s[0])
    decreases j
  {
    forall i | skip <= i < j ensures key(s[i]) == key(s[0]) {
      OnlyOneInWindow(key, s, skip, take, i);
    }
    if key(s[j]) != key(s[0]) {
      PlaceOfFirst(key, s, skip, take, j);
      OfNone(key, s[..skip], key(s[j]));
      assert false;
    }
  }

  /** If every owner gets as many elements as from a window of its own, and the same ones
      where the window both skips and limits, then the batch is fair. */
  lemma SharesAreFair<T(!new)>(key: T -> int, s: seq<T>, skip: nat, take: nat)
    requires forall i :: 0 <= i < |s| ==>
      |Of(key, Cut(skip, take, s), key(s[i]))| == |Cut(skip, take, Of(key, s, key(s[i])))|
    requires skip > 0 && take > 0 ==>
      Distinct(s) && forall i :: 0 <= i < |s| ==> SameShare(key, s, skip, take, key(s[i]))
    ensures Fair(key, s, skip, take)
  {
    if skip == 0 && take > 0 {
      LimitIsFair(key, s, take);
    } else if skip > 0 && take == 0 {
      OffsetIsFair(key, s, skip);
    } else if skip > 0 {
      WindowIsFair(key, s, skip, take);
    }
  }
}
