/**
 * Grouping overlays by page and drawing them onto a loaded template. The PDF document is
 * reduced to its page count and the log of text runs drawn on it; `groupOverlaysByPage`'s
 * `Map` is a key order (JavaScript maps iterate in insertion order) plus a `map`.
 */
module Rendering {
  import opened Strings
  import opened Report

  predicate NoDuplicates(keys: seq<nat>) {
    forall i, j :: 0 <= i < j < |keys| ==> keys[i] != keys[j]
  }

  /** The overlays of `os` placed on page `p`, in their original order. */
  function OnPage(os: seq<Overlay>, p: nat): (r: seq<Overlay>)
    ensures |r| <= |os|
    ensures forall o :: o in r ==> o in os && o.page == p
  {
    if os == [] then []
    else OnPage(os[..|os| - 1], p) + (if os[|os| - 1].page == p then [os[|os| - 1]] else [])
  }

  /** The distinct pages of `os`, in the order of their first use. */
  function Pages(os: seq<Overlay>): seq<nat> {
    if os == [] then []
    else
      var earlier := Pages(os[..|os| - 1]);
      var p := os[|os| - 1].page;
      if p in earlier then earlier else earlier + [p]
  }

  /** `Pages` lists each page once, and lists exactly the pages some overlay is placed on. */
  lemma {:induction false} PagesSpec(os: seq<Overlay>)
    ensures NoDuplicates(Pages(os))
    ensures forall p :: p in Pages(os) <==> exists i :: 0 <= i < |os| && os[i].page == p
    decreases |os|
  {
    if os != [] {
      var prefix := os[..|os| - 1];
      PagesSpec(prefix);
      assert forall i :: 0 <= i < |prefix| ==> prefix[i] == os[i];
      forall p | p in Pages(os) ensures exists i :: 0 <= i < |os| && os[i].page == p {
        if p !in Pages(prefix) {
          assert os[|os| - 1].page == p;
        }
      }
    }
  }

  /** A page nothing is placed on has an empty group. */
  lemma {:induction false} OnPageOfUnusedPage(os: seq<Overlay>, p: nat)
    requires p !in Pages(os)
    ensures OnPage(os, p) == []
    decreases |os|
  {
    if os != [] {
      var prefix := os[..|os| - 1];
      assert forall i :: 0 <= i < |prefix| ==> prefix[i] == os[i];
      OnPageOfUnusedPage(prefix, p);
    }
  }

  /** A non-empty list placed entirely on page `p` uses that page only, and it is that page's group. */
  lemma SinglePage(os: seq<Overlay>, p: nat)
    requires os != [] && forall i :: 0 <= i < |os| ==> os[i].page == p
    ensures Pages(os) == [p] && OnPage(os, p) == os
  {
    var r := Pages(os);
    PagesSpec(os);
    assert os[0].page in r;
    assert forall q :: q in r ==> q == p;
    assert forall o :: o in os ==> o.page == p;
    OnPageOfOnePage(os, p, p);
  }

  /** What the renderer draws: overlays on an existing page whose trimmed text is not empty. */
  predicate Drawable(o: Overlay, pageCount: nat) {
    o.page < pageCount && !IsBlank(o.text)
  }

  /** The overlays of `os` the renderer draws, in their order. */
  function Selected(os: seq<Overlay>, pageCount: nat): seq<Overlay> {
    if os == [] then []
    else
      var last := os[|os| - 1];
      Selected(os[..|os| - 1], pageCount) + (if Drawable(last, pageCount) then [last] else [])
  }

  /** The selection holds each drawable overlay as often as `os` does, and nothing else. */
  lemma {:induction false} SelectedCount(os: seq<Overlay>, pageCount: nat, o: Overlay)
    ensures multiset(Selected(os, pageCount))[o] == if Drawable(o, pageCount) then multiset(os)[o] else 0
    decreases |os|
  {
    if os != [] {
      var last := os[|os| - 1];
      assert os == os[..|os| - 1] + [last];
      SelectedCount(os[..|os| - 1], pageCount, o);
    }
  }

  /** The overlays of one page group whose trimmed text is not empty (`if (overlay.text.trim())`). */
  function NonBlank(group: seq<Overlay>): seq<Overlay> {
    if group == [] then []
    else
      var last := group[|group| - 1];
      NonBlank(group[..|group| - 1]) + (if !IsBlank(last.text) then [last] else [])
  }

  /** The page groups of `os` concatenated in the order `keys` gives. */
  function Flatten(keys: seq<nat>, os: seq<Overlay>): seq<Overlay> {
    if keys == [] then []
    else Flatten(keys[..|keys| - 1], os) + OnPage(os, keys[|keys| - 1])
  }

  /** What the draw loop draws for one group: nothing on a missing page, else its non-blank overlays. */
  function PageDraws(page: nat, group: seq<Overlay>, pageCount: nat): seq<Overlay> {
    if page >= pageCount then [] else NonBlank(group)
  }

  /** The draw log the renderer's nested loop produces when it visits the groups of `os` in `keys` order. */
  function Plan(keys: seq<nat>, os: seq<Overlay>, pageCount: nat): seq<Overlay> {
    if keys == [] then []
    else
      var k := keys[|keys| - 1];
      Plan(keys[..|keys| - 1], os, pageCount) + PageDraws(k, OnPage(os, k), pageCount)
  }

  /**
   * Visiting one more group after the log `pre` extends it by that group's non-blank overlays,
   * or by nothing when the page is missing: the step of both draw loops.
   */
  lemma PlanExtend(pre: seq<Overlay>, keys: seq<nat>, k: nat, os: seq<Overlay>, pageCount: nat)
    requires k < |keys|
    ensures keys[k] < pageCount ==>
      pre + Plan(keys[..k + 1], os, pageCount) == pre + Plan(keys[..k], os, pageCount) + NonBlank(OnPage(os, keys[k]))
    ensures keys[k] >= pageCount ==>
      pre + Plan(keys[..k + 1], os, pageCount) == pre + Plan(keys[..k], os, pageCount)
  {
    var before := Plan(keys[..k], os, pageCount);
    var step := PageDraws(keys[k], OnPage(os, keys[k]), pageCount);
    assert Plan(keys[..k + 1], os, pageCount) == before + step by {
      assert keys[..k + 1][..k] == keys[..k];
    }
    assert pre + (before + step) == pre + before + step;
    if keys[k] >= pageCount {
      assert before + step == before;
    }
  }

  /** Looking at one more overlay of a group after the log `pre` draws it unless its text is blank. */
  lemma NonBlankExtend(pre: seq<Overlay>, group: seq<Overlay>, j: nat)
    requires j < |group|
    ensures !IsBlank(group[j].text) ==> pre + NonBlank(group[..j + 1]) == pre + NonBlank(group[..j]) + [group[j]]
    ensures IsBlank(group[j].text) ==> pre + NonBlank(group[..j + 1]) == pre + NonBlank(group[..j])
  {
    var before := NonBlank(group[..j]);
    var step := if !IsBlank(group[j].text) then [group[j]] else [];
    assert NonBlank(group[..j + 1]) == before + step by {
      assert group[..j + 1][..j] == group[..j];
    }
    assert pre + (before + step) == pre + before + step;
    if IsBlank(group[j].text) {
      assert before + step == before;
    }
  }

  /** A non-empty sequence is its front followed by its last element. */
  lemma LastSplit<T>(s: seq<T>)
    requires s != []
    ensures s == s[..|s| - 1] + [s[|s| - 1]]
  {
  }

  /** `groupOverlaysByPage`'s result: the map's keys in insertion order, and the map. */
  datatype PageGroups = PageGroups(order: seq<nat>, groups: map<nat, seq<Overlay>>)

  /**
   * `groupOverlaysByPage`: one group per page, keyed in the order pages first appear, each
   * holding that page's overlays in their original order.
   */
  method GroupOverlaysByPage(overlays: seq<Overlay>) returns (grouped: PageGroups)
    ensures grouped.order == Pages(overlays)
    ensures forall p :: p in grouped.groups <==> p in grouped.order
    ensures forall p :: p in grouped.groups ==> grouped.groups[p] == OnPage(overlays, p)
  {
    var order: seq<nat> := [];
    var groups: map<nat, seq<Overlay>> := map[];
    for i := 0 to |overlays|
      invariant order == Pages(overlays[..i])
      invariant forall p :: p in groups <==> p in order
      invariant forall p :: p in groups ==> groups[p] == OnPage(overlays[..i], p)
    {
      var overlay := overlays[i];
      assert overlays[..i + 1][..i] == overlays[..i];
      if overlay.page !in groups {
        OnPageOfUnusedPage(overlays[..i], overlay.page);
        groups := groups[overlay.page := []];
        order := order + [overlay.page];
      }
      groups := groups[overlay.page := groups[overlay.page] + [overlay]];
    }
    assert overlays[..|overlays|] == overlays;
    grouped := PageGroups(order, groups);
  }

  /** Adding one overlay adds it to exactly one of the groups `keys` lists, if any lists its page. */
  lemma {:induction false} FlattenSnoc(keys: seq<nat>, os: seq<Overlay>, o: Overlay)
    requires NoDuplicates(keys)
    ensures multiset(Flatten(keys, os + [o])) ==
      multiset(Flatten(keys, os)) + (if o.page in keys then multiset{o} else multiset{})
    decreases |keys|
  {
    if o.page !in keys {
      FlattenSnocUnlisted(keys, os, o);
    } else if o.page == keys[|keys| - 1] {
      FlattenSnocLast(keys, os, o);
    } else {
      var prefix, k := keys[..|keys| - 1], keys[|keys| - 1];
      var f1, f0, p := Flatten(prefix, os + [o]), Flatten(prefix, os), OnPage(os, k);
      OnPageSnoc(os, o, k);
      assert Flatten(keys, os + [o]) == f1 + p;
      assert Flatten(keys, os) == f0 + p;
      assert o.page in prefix;
      FlattenSnoc(prefix, os, o);
      assert multiset(f1) == multiset(f0) + multiset{o};
      assert multiset(f1 + p) == multiset(f1) + multiset(p);
      assert multiset(f0 + p) == multiset(f0) + multiset(p);
    }
  }

  /** An overlay on the last page `keys` lists joins that page's group and no other. */
  lemma FlattenSnocLast(keys: seq<nat>, os: seq<Overlay>, o: Overlay)
    requires NoDuplicates(keys) && keys != [] && o.page == keys[|keys| - 1]
    ensures multiset(Flatten(keys, os + [o])) == multiset(Flatten(keys, os)) + multiset{o}
  {
    var prefix := keys[..|keys| - 1];
    var f, p := Flatten(prefix, os), OnPage(os, o.page);
    assert o.page !in prefix;
    FlattenSnocUnlisted(prefix, os, o);
    OnPageSnoc(os, o, o.page);
    assert Flatten(keys, os + [o]) == f + (p + [o]);
    assert Flatten(keys, os) == f + p;
    assert f + (p + [o]) == (f + p) + [o];
  }

  /** An overlay on a page `keys` does not list changes none of their groups. */
  lemma {:induction false} FlattenSnocUnlisted(keys: seq<nat>, os: seq<Overlay>, o: Overlay)
    requires o.page !in keys
    ensures Flatten(keys, os + [o]) == Flatten(keys, os)
    decreases |keys|
  {
    if keys != [] {
      var prefix := keys[..|keys| - 1];
      assert o.page !in prefix;
      OnPageSnoc(os, o, keys[|keys| - 1]);
      FlattenSnocUnlisted(prefix, os, o);
    }
  }

  /** Adding one overlay adds it to the group of its own page and to no other. */
  lemma OnPageSnoc(os: seq<Overlay>, o: Overlay, k: nat)
    ensures OnPage(os + [o], k) == OnPage(os, k) + (if o.page == k then [o] else [])
  {
    assert (os + [o])[..|os|] == os;
  }

  /** The groups of `groupOverlaysByPage` together hold every overlay exactly as often as the input. */
  lemma {:induction false} GroupsPartition(os: seq<Overlay>)
    ensures multiset(Flatten(Pages(os), os)) == multiset(os)
    decreases |os|
  {
    if os != [] {
      var prefix, o := os[..|os| - 1], os[|os| - 1];
      var keys := Pages(prefix);
      GroupsPartition(prefix);
      PagesSpec(prefix);
      LastSplit(os);
      FlattenSnoc(keys, prefix, o);
      assert multiset(os) == multiset(prefix) + multiset{o};
      if o.page !in keys {
        OnPageOfUnusedPage(prefix, o.page);
        assert OnPage(os, o.page) == [o];
        assert (keys + [o.page])[..|keys|] == keys;
        assert Flatten(Pages(os), os) == Flatten(keys, os) + [o];
        assert multiset(Flatten(keys, os)) == multiset(prefix);
      } else {
        assert Pages(os) == keys;
        assert multiset(Flatten(keys, os)) == multiset(prefix) + multiset{o};
      }
    }
  }

  lemma {:induction false} SelectedAppend(a: seq<Overlay>, b: seq<Overlay>, pageCount: nat)
    ensures Selected(a + b, pageCount) == Selected(a, pageCount) + Selected(b, pageCount)
    decreases |b|
  {
    if b == [] {
      assert a + b == a;
    } else {
      var last := b[|b| - 1];
      var tail := if Drawable(last, pageCount) then [last] else [];
      assert (a + b)[..|a + b| - 1] == a + b[..|b| - 1];
      assert (a + b)[|a + b| - 1] == last;
      assert Selected(a + b, pageCount) == Selected(a + b[..|b| - 1], pageCount) + tail;
      SelectedAppend(a, b[..|b| - 1], pageCount);
      assert Selected(b, pageCount) == Selected(b[..|b| - 1], pageCount) + tail;
    }
  }

  /** On one page, the renderer's group test and the overall selection agree. */
  lemma {:induction false} SelectedOfOnePage(group: seq<Overlay>, page: nat, pageCount: nat)
    requires forall o :: o in group ==> o.page == page
    ensures Selected(group, pageCount) == PageDraws(page, group, pageCount)
    decreases |group|
  {
    if group != [] {
      var prefix := group[..|group| - 1];
      assert forall o :: o in prefix ==> o in group;
      assert group[|group| - 1] in group;
      SelectedOfOnePage(prefix, page, pageCount);
    }
  }

  /** Visiting the groups and drawing each one's non-blank overlays selects from the concatenated groups. */
  lemma {:induction false} PlanIsSelection(keys: seq<nat>, os: seq<Overlay>, pageCount: nat)
    ensures Plan(keys, os, pageCount) == Selected(Flatten(keys, os), pageCount)
    decreases |keys|
  {
    if keys != [] {
      var k := keys[|keys| - 1];
      PlanIsSelection(keys[..|keys| - 1], os, pageCount);
      SelectedOfOnePage(OnPage(os, k), k, pageCount);
      SelectedAppend(Flatten(keys[..|keys| - 1], os), OnPage(os, k), pageCount);
    }
  }

  /**
   * The draw loop over `groupOverlaysByPage`'s groups draws exactly the drawable overlays: each
   * as many times as it occurs in the input, and nothing else.
   */
  lemma DrawsSelected(os: seq<Overlay>, pageCount: nat)
    ensures multiset(Plan(Pages(os), os, pageCount)) == multiset(Selected(os, pageCount))
  {
    var flat := Flatten(Pages(os), os);
    PlanIsSelection(Pages(os), os, pageCount);
    GroupsPartition(os);
    forall o ensures multiset(Selected(flat, pageCount))[o] == multiset(Selected(os, pageCount))[o] {
      SelectedCount(flat, pageCount, o);
      SelectedCount(os, pageCount, o);
    }
  }

  /** An overlay is drawn if and only if its page exists and its trimmed text is not empty. */
  lemma DrawnIff(os: seq<Overlay>, pageCount: nat, o: Overlay)
    ensures o in Plan(Pages(os), os, pageCount) <==> o in os && Drawable(o, pageCount)
  {
    DrawsSelected(os, pageCount);
    SelectedCount(os, pageCount, o);
    assert o in Plan(Pages(os), os, pageCount) <==> multiset(Plan(Pages(os), os, pageCount))[o] > 0;
  }

  /**
   * When every overlay is on page 0 or on a page the template lacks, exactly the non-blank
   * page-0 overlays are drawn, and only if the template has a page at all.
   */
  lemma DrawnFirstPageOnly(os: seq<Overlay>, pageCount: nat)
    requires forall i :: 0 <= i < |os| ==> os[i].page == 0 || os[i].page >= pageCount
    ensures forall o :: o in Plan(Pages(os), os, pageCount) <==> o in os && o.page == 0 && 0 < pageCount && !IsBlank(o.text)
  {
    forall o ensures o in Plan(Pages(os), os, pageCount) <==> o in os && o.page == 0 && 0 < pageCount && !IsBlank(o.text) {
      DrawnIff(os, pageCount, o);
    }
  }

  lemma {:induction false} OnPageAppend(a: seq<Overlay>, b: seq<Overlay>, p: nat)
    ensures OnPage(a + b, p) == OnPage(a, p) + OnPage(b, p)
    decreases |b|
  {
    if b == [] {
      assert a + b == a;
    } else {
      var last := b[|b| - 1];
      var tail := if last.page == p then [last] else [];
      assert (a + b)[..|a + b| - 1] == a + b[..|b| - 1];
      assert OnPage(a + b, p) == OnPage(a + b[..|b| - 1], p) + tail;
      assert OnPage(b, p) == OnPage(b[..|b| - 1], p) + tail;
      OnPageAppend(a, b[..|b| - 1], p);
    }
  }

  lemma {:induction false} OnPageOfOnePage(group: seq<Overlay>, page: nat, p: nat)
    requires forall o :: o in group ==> o.page == page
    ensures OnPage(group, p) == if page == p then group else []
    decreases |group|
  {
    if group != [] {
      var prefix, last := group[..|group| - 1], group[|group| - 1];
      assert forall o :: o in prefix ==> o in group;
      assert last in group;
      OnPageOfOnePage(prefix, page, p);
      assert OnPage(group, p) == OnPage(prefix, p) + (if last.page == p then [last] else []);
      if page == p {
        LastSplit(group);
      }
    }
  }

  lemma {:induction false} OnPageFlatten(keys: seq<nat>, os: seq<Overlay>, p: nat)
    requires NoDuplicates(keys)
    ensures OnPage(Flatten(keys, os), p) == if p in keys then OnPage(os, p) else []
    decreases |keys|
  {
    if keys != [] {
      var prefix := keys[..|keys| - 1];
      var k := keys[|keys| - 1];
      OnPageFlatten(prefix, os, p);
      OnPageAppend(Flatten(prefix, os), OnPage(os, k), p);
      OnPageOfOnePage(OnPage(os, k), k, p);
      assert p in keys <==> p in prefix || p == k;
      assert k !in prefix;
    }
  }

  lemma {:induction false} OnPageSelected(os: seq<Overlay>, pageCount: nat, p: nat)
    ensures OnPage(Selected(os, pageCount), p) == Selected(OnPage(os, p), pageCount)
    decreases |os|
  {
    if os != [] {
      var prefix := os[..|os| - 1];
      var last := os[|os| - 1];
      OnPageSelected(prefix, pageCount, p);
      OnPageAppend(Selected(prefix, pageCount), if Drawable(last, pageCount) then [last] else [], p);
      SelectedAppend(OnPage(prefix, p), if last.page == p then [last] else [], pageCount);
      assert [last][..0] == [];
    }
  }

  /** Per page, the draws happen in the overlays' original order: grouping keeps relative order. */
  lemma DrawOrderOnPage(os: seq<Overlay>, pageCount: nat, p: nat)
    ensures OnPage(Plan(Pages(os), os, pageCount), p) == Selected(OnPage(os, p), pageCount)
  {
    PagesSpec(os);
    PlanIsSelection(Pages(os), os, pageCount);
    OnPageSelected(Flatten(Pages(os), os), pageCount, p);
    OnPageFlatten(Pages(os), os, p);
    if p !in Pages(os) {
      OnPageOfUnusedPage(os, p);
    }
  }

  /**
   * A loaded template (`PDFDocument.load`), reduced to its page count and the text runs drawn on
   * it so far; every run uses the embedded font at 13 points in black.
   */
  class PdfDocument {
    const pageCount: nat
    var drawn: seq<Overlay>

    constructor Load(pageCount: nat)
      ensures this.pageCount == pageCount && drawn == []
    {
      this.pageCount := pageCount;
      drawn := [];
    }

    /** `pdfDoc.getPage(pageIndex).drawText(text, { x, y, ... })`. */
    method DrawText(pageIndex: nat, text: string, x: int, y: int)
      requires pageIndex < pageCount
      modifies this
      ensures drawn == old(drawn) + [Overlay(text, x, y, pageIndex)]
    {
      drawn := drawn + [Overlay(text, x, y, pageIndex)];
    }
  }
}
