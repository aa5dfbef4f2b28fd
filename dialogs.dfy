/**
 * SuDialogService: the stack of open dialogs. Every operation replaces the
 * whole DialogContexts list with one rebuilt from the old one; the pure
 * functions below are those rebuilt lists, and the class methods assign them.
 */
module Dialogs {
  import opened Collections
  import opened Components

  /** Construction options; the C# record defaults are DefaultOptions. */
  datatype Options = Options(backgroundClass: string, backgroundStyle: string, zIndex: int)

  const DefaultOptions: Options := Options("", "", 1000)

  /** A request to open a dialog; the identifier is supplied by the caller. */
  datatype DialogOpenReq = DialogOpenReq(
    componentIdentifier: string,
    parameters: Parameters,
    wrapperClass: string,
    wrapperStyle: string)

  /** One open dialog; Index orders the stack, the largest being on top. */
  datatype DialogContext = DialogContext(
    componentIdentifier: string,
    componentType: ComponentType,
    index: int,
    parameters: Parameters,
    wrapperClass: string,
    wrapperStyle: string)

  /** The key the service sorts and picks the top dialog by. */
  function IndexOf(c: DialogContext): int { c.index }

  /** The invariant every operation keeps: Index strictly ascends along the list. */
  predicate Ascending(s: seq<DialogContext>) {
    StrictlyIncreasingBy(s, IndexOf)
  }

  /**
   * The Index a newly opened dialog receives: one more than the largest live
   * Index, or 0 when no dialog is open.
   */
  function NextIndex(s: seq<DialogContext>): (r: int)
    ensures s == [] ==> r == 0
    ensures s != [] ==> exists c :: c in s && r == c.index + 1
    ensures forall c :: c in s ==> c.index < r
  {
    match MaxBy(s, IndexOf)
    case None => 0
    case Some(top) => top.index + 1
  }

  /** The context OpenDialog builds from the request and the live list. */
  function NewContext(s: seq<DialogContext>, componentType: ComponentType, req: DialogOpenReq): (r: DialogContext)
    ensures r.componentIdentifier == req.componentIdentifier && r.componentType == componentType
    ensures r.parameters == req.parameters
    ensures r.wrapperClass == req.wrapperClass && r.wrapperStyle == req.wrapperStyle
    ensures s == [] ==> r.index == 0
    ensures s != [] ==> exists c :: c in s && r.index == c.index + 1
    ensures forall c :: c in s ==> c.index < r.index
  {
    DialogContext(req.componentIdentifier, componentType, NextIndex(s), req.parameters,
                  req.wrapperClass, req.wrapperStyle)
  }

  /** The list OpenDialog assigns: the new context added, then ordered by Index. */
  function Opened(s: seq<DialogContext>, componentType: ComponentType, req: DialogOpenReq): (r: seq<DialogContext>)
    ensures SortedBy(r, IndexOf)
    ensures multiset(r) == multiset(s) + multiset{NewContext(s, componentType, req)}
  {
    OrderBy(s + [NewContext(s, componentType, req)], IndexOf)
  }

  /**
   * The list CloseDialog() assigns: the context MaxBy picks removed, then
   * ordered by Index; an empty list is returned as it is.
   */
  function ClosedTop(s: seq<DialogContext>): (r: seq<DialogContext>)
    ensures s == [] ==> r == []
    ensures s != [] ==> |r| == |s| - 1 && SortedBy(r, IndexOf)
    ensures s != [] ==> multiset(r) == multiset(s) - multiset{MaxBy(s, IndexOf).value}
  {
    match MaxBy(s, IndexOf)
    case None => s
    case Some(top) => OrderBy(Remove(s, top), IndexOf)
  }

  /** The rule CloseDialog(id) removes by. */
  function IdentifiedBy(id: string): DialogContext -> bool {
    (c: DialogContext) => c.componentIdentifier == id
  }

  /** The list CloseDialog(id) assigns: every context with that id removed, then ordered by Index. */
  function ClosedById(s: seq<DialogContext>, id: string): (r: seq<DialogContext>)
    ensures SortedBy(r, IndexOf)
    ensures forall c :: c in r ==> c in s && c.componentIdentifier != id
    ensures forall c :: c in s && c.componentIdentifier != id ==> c in r
  {
    var kept := RemoveAll(s, IdentifiedBy(id));
    var r := OrderBy(kept, IndexOf);
    assert forall c :: c in r <==> c in kept by {
      forall c ensures c in r <==> c in kept {
        assert c in r <==> c in multiset(r);
        assert c in kept <==> c in multiset(kept);
      }
    }
    r
  }

  /** The last element of an ascending list has the largest Index of all. */
  lemma {:induction false} TopIsLast(s: seq<DialogContext>)
    requires Ascending(s) && s != []
    ensures MaxBy(s, IndexOf) == Some(s[|s| - 1])
    ensures s[|s| - 1] !in s[..|s| - 1]
  {
    var top := MaxBy(s, IndexOf).value;
    var k :| 0 <= k < |s| && s[k] == top;
    assert IndexOf(s[|s| - 1]) <= IndexOf(top);
    assert k == |s| - 1;
    forall j | 0 <= j < |s| - 1 ensures s[j] != s[|s| - 1] {
      assert IndexOf(s[j]) < IndexOf(s[|s| - 1]);
    }
  }

  /** An ascending list is already in the order OrderBy produces. */
  lemma AscendingIsSorted(s: seq<DialogContext>)
    requires Ascending(s)
    ensures OrderBy(s, IndexOf) == s
  {
    assert SortedBy(s, IndexOf);
    OrderByOfSorted(s, IndexOf);
  }

  /**
   * On an ascending list OpenDialog appends the new context at the end, on
   * top of every live one, and the list stays ascending.
   */
  lemma OpenedAppends(s: seq<DialogContext>, componentType: ComponentType, req: DialogOpenReq)
    requires Ascending(s)
    ensures Opened(s, componentType, req) == s + [NewContext(s, componentType, req)]
    ensures Ascending(Opened(s, componentType, req))
  {
    var c := NewContext(s, componentType, req);
    var t := s + [c];
    forall i, j | 0 <= i < j < |t| ensures IndexOf(t[i]) < IndexOf(t[j]) {
      if j == |s| {
        assert t[i] in s;
      } else {
        assert IndexOf(s[i]) < IndexOf(s[j]);
      }
    }
    AscendingIsSorted(t);
  }

  /**
   * On an ascending list CloseDialog() removes exactly the last context (the
   * one with the largest Index) and keeps the others in order; an empty list
   * stays empty.
   */
  lemma ClosedTopDropsLast(s: seq<DialogContext>)
    requires Ascending(s)
    ensures s == [] ==> ClosedTop(s) == []
    ensures s != [] ==> ClosedTop(s) == s[..|s| - 1]
    ensures Ascending(ClosedTop(s))
  {
    if s != [] {
      TopIsLast(s);
      RemoveDistinctLast(s);
      AscendingIsSorted(s[..|s| - 1]);
    }
  }

  /**
   * On an ascending list CloseDialog(id) removes every context carrying id
   * and no other, keeps the survivors in order, and changes nothing when no
   * context carries id.
   */
  lemma ClosedByIdFilters(s: seq<DialogContext>, id: string)
    requires Ascending(s)
    ensures ClosedById(s, id) == RemoveAll(s, IdentifiedBy(id))
    ensures forall c :: c in ClosedById(s, id) ==> c in s && c.componentIdentifier != id
    ensures forall c :: c in s && c.componentIdentifier != id ==> c in ClosedById(s, id)
    ensures (forall c :: c in s ==> c.componentIdentifier != id) ==> ClosedById(s, id) == s
    ensures Ascending(ClosedById(s, id))
  {
    RemoveAllKeepsStrictlyIncreasing(s, IdentifiedBy(id), IndexOf);
    AscendingIsSorted(RemoveAll(s, IdentifiedBy(id)));
    if forall c :: c in s ==> c.componentIdentifier != id {
      RemoveAllNoMatch(s, IdentifiedBy(id));
    }
  }

  /**
   * CloseDialog() undoes OpenDialog, and because the next Index is computed
   * from the live contexts only, opening again reuses the same Index.
   */
  lemma ClosedTopUndoesOpened(s: seq<DialogContext>, componentType: ComponentType, req: DialogOpenReq)
    requires Ascending(s)
    ensures ClosedTop(Opened(s, componentType, req)) == s
    ensures NextIndex(ClosedTop(Opened(s, componentType, req))) == NextIndex(s)
  {
    OpenedAppends(s, componentType, req);
    var t := Opened(s, componentType, req);
    ClosedTopDropsLast(t);
    assert t[..|t| - 1] == s;
  }

  /** The list after a series of OpenDialog calls, one per (type, request) pair, in order. */
  function OpenedAll(s: seq<DialogContext>, reqs: seq<(ComponentType, DialogOpenReq)>): seq<DialogContext>
    decreases |reqs|
  {
    if reqs == [] then s
    else
      var last := reqs[|reqs| - 1];
      Opened(OpenedAll(s, reqs[..|reqs| - 1]), last.0, last.1)
  }

  /**
   * r extends s with one context per request, in request order, whose Index
   * values count up by one from first.
   */
  predicate CountsUp(r: seq<DialogContext>, s: seq<DialogContext>, first: int,
                     reqs: seq<(ComponentType, DialogOpenReq)>)
  {
    && |r| == |s| + |reqs|
    && r[..|s|] == s
    && forall k :: |s| <= k < |r| ==>
         r[k].index == first + (k - |s|) &&
         r[k].componentIdentifier == reqs[k - |s|].1.componentIdentifier
  }

  /** Appending the context for the last request extends a count-up by one. */
  lemma CountsUpStep(prev: seq<DialogContext>, s: seq<DialogContext>, first: int,
                     reqs: seq<(ComponentType, DialogOpenReq)>, c: DialogContext)
    requires reqs != [] && CountsUp(prev, s, first, reqs[..|reqs| - 1])
    requires c.index == first + |reqs| - 1
    requires c.componentIdentifier == reqs[|reqs| - 1].1.componentIdentifier
    ensures CountsUp(prev + [c], s, first, reqs)
  {
    var r := prev + [c];
    forall k | |s| <= k < |r|
      ensures r[k].index == first + (k - |s|)
      ensures r[k].componentIdentifier == reqs[k - |s|].1.componentIdentifier
    {
      if k < |prev| {
        assert reqs[..|reqs| - 1][k - |s|] == reqs[k - |s|];
      }
    }
    assert r[..|s|] == prev[..|s|];
  }

  /**
   * A series of OpenDialog calls appends one context per call, in call order,
   * with Index values counting up by one from NextIndex of the starting list.
   */
  lemma {:induction false} OpenedAllCountsUp(s: seq<DialogContext>, reqs: seq<(ComponentType, DialogOpenReq)>)
    requires Ascending(s)
    ensures Ascending(OpenedAll(s, reqs))
    ensures CountsUp(OpenedAll(s, reqs), s, NextIndex(s), reqs)
    decreases |reqs|
  {
    if reqs != [] {
      var n := |reqs|;
      var init := reqs[..n - 1];
      OpenedAllCountsUp(s, init);
      var prev := OpenedAll(s, init);
      var c := NewContext(prev, reqs[n - 1].0, reqs[n - 1].1);
      OpenedAppends(prev, reqs[n - 1].0, reqs[n - 1].1);
      assert c.index == NextIndex(s) + n - 1 by {
        if n > 1 {
          TopIsLast(prev);
        }
      }
      CountsUpStep(prev, s, NextIndex(s), reqs, c);
    } else {
      assert s[..|s|] == s;
    }
  }

  /** Opening n dialogs on an empty service numbers them 0, 1, ..., n - 1. */
  lemma OpenedAllFromEmpty(reqs: seq<(ComponentType, DialogOpenReq)>)
    ensures |OpenedAll([], reqs)| == |reqs|
    ensures forall k :: 0 <= k < |reqs| ==> OpenedAll([], reqs)[k].index == k
  {
    var empty: seq<DialogContext> := [];
    OpenedAllCountsUp(empty, reqs);
    assert NextIndex(empty) == 0;
  }

  // --- The Index arithmetic as written: C#'s unchecked 32-bit int ---

  const Int32Min: int := -0x8000_0000
  const Int32Max: int := 0x7FFF_FFFF

  /** Unchecked C# int arithmetic: the value reduced into the 32-bit range. */
  function WrapInt32(x: int): (r: int)
    ensures Int32Min <= r <= Int32Max
    ensures (r - x) % 0x1_0000_0000 == 0
    ensures Int32Min <= x <= Int32Max ==> r == x
  {
    (x - Int32Min) % 0x1_0000_0000 + Int32Min
  }

  /** The next Index as the source computes it, with `+ 1` wrapping at int.MaxValue. */
  function NextIndexAsWritten(s: seq<DialogContext>): (r: int)
    ensures Int32Min <= r <= Int32Max
    ensures r == WrapInt32(NextIndex(s))
  {
    match MaxBy(s, IndexOf)
    case None => 0
    case Some(top) => WrapInt32(top.index + 1)
  }

  /** Below int.MaxValue the wrapping and the unbounded next Index agree. */
  lemma NextIndexAsWrittenAgrees(s: seq<DialogContext>)
    requires forall c :: c in s ==> Int32Min <= c.index < Int32Max
    ensures NextIndexAsWritten(s) == NextIndex(s)
  {
  }

  /**
   * Once a live dialog has Index int.MaxValue, the next dialog is numbered
   * int.MinValue and so sorts beneath it, and the one after that is numbered
   * int.MinValue again: two live dialogs then share an Index.
   */
  lemma NextIndexAsWrittenWraps(top: DialogContext, next: DialogContext)
    requires top.index == Int32Max && next.index == Int32Min
    ensures NextIndexAsWritten([top]) == Int32Min < top.index
    ensures NextIndexAsWritten([next, top]) == next.index
    ensures NextIndex([top]) > top.index
  {
  }

  /**
   * The dialog service. Valid() is the ascending-Index invariant; the ghost
   * ChangeEvents counts how often OnDialogContextsChange has been raised.
   */
  class SuDialogService {
    var BackgroundClass: string
    var BackgroundStyle: string
    var ZIndex: int
    var DialogContexts: seq<DialogContext>
    ghost var ChangeEvents: nat

    ghost predicate Valid()
      reads this
    {
      Ascending(DialogContexts)
    }

    /** Copies the background settings and the z-index from the options. */
    constructor (option: Options)
      ensures Valid()
      ensures ZIndex == option.zIndex
      ensures BackgroundStyle == option.backgroundStyle
      ensures BackgroundClass == option.backgroundClass
      ensures DialogContexts == [] && ChangeEvents == 0
    {
      ZIndex := option.zIndex;
      BackgroundStyle := option.backgroundStyle;
      BackgroundClass := option.backgroundClass;
      DialogContexts := [];
      ChangeEvents := 0;
    }

    /** Closes every dialog and always raises the change event. */
    method CloseAllDialog()
      requires Valid()
      modifies this`DialogContexts, this`ChangeEvents
      ensures Valid()
      ensures DialogContexts == []
      ensures ChangeEvents == old(ChangeEvents) + 1
    {
      DialogContexts := [];
      ChangeEvents := ChangeEvents + 1;
    }

    /**
     * Closes the dialog on top. With no dialog open it returns early and
     * raises no event.
     */
    method CloseDialog()
      requires Valid()
      modifies this`DialogContexts, this`ChangeEvents
      ensures Valid()
      ensures old(DialogContexts) == [] ==>
                DialogContexts == [] && ChangeEvents == old(ChangeEvents)
      ensures old(DialogContexts) != [] ==>
                DialogContexts == old(DialogContexts)[..|old(DialogContexts)| - 1] &&
                ChangeEvents == old(ChangeEvents) + 1
    {
      ClosedTopDropsLast(DialogContexts);
      if MaxBy(DialogContexts, IndexOf).None? {
        return;
      }
      DialogContexts := ClosedTop(DialogContexts);
      ChangeEvents := ChangeEvents + 1;
    }

    /** Closes every dialog carrying the identifier; the event is raised even when none does. */
    method CloseDialogById(componentIdentifier: string)
      requires Valid()
      modifies this`DialogContexts, this`ChangeEvents
      ensures Valid()
      ensures DialogContexts == RemoveAll(old(DialogContexts), IdentifiedBy(componentIdentifier))
      ensures forall c :: c in DialogContexts <==>
                c in old(DialogContexts) && c.componentIdentifier != componentIdentifier
      ensures ChangeEvents == old(ChangeEvents) + 1
    {
      ClosedByIdFilters(DialogContexts, componentIdentifier);
      DialogContexts := ClosedById(DialogContexts, componentIdentifier);
      ChangeEvents := ChangeEvents + 1;
    }

    /**
     * Opens a dialog on top of the others: the list grows by one context at
     * the end, built from the request, numbered one above every live Index.
     */
    method OpenDialog(componentType: ComponentType, req: DialogOpenReq)
      requires Valid()
      modifies this`DialogContexts, this`ChangeEvents
      ensures Valid()
      ensures |DialogContexts| == |old(DialogContexts)| + 1
      ensures DialogContexts[..|old(DialogContexts)|] == old(DialogContexts)
      ensures var c := DialogContexts[|DialogContexts| - 1];
        && c.componentIdentifier == req.componentIdentifier
        && c.componentType == componentType
        && c.parameters == req.parameters
        && c.wrapperClass == req.wrapperClass
        && c.wrapperStyle == req.wrapperStyle
        && c.index == NextIndex(old(DialogContexts))
      ensures ChangeEvents == old(ChangeEvents) + 1
    {
      OpenedAppends(DialogContexts, componentType, req);
      DialogContexts := Opened(DialogContexts, componentType, req);
      ChangeEvents := ChangeEvents + 1;
    }
  }
}
