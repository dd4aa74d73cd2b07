/** `CustomerScrollWidget`: widgets looked up by id and laid out in order, above a stretch that stays last. */
module ScrollWidgets {
  import opened Seqs

  datatype Owner = MYSELF | OTHERS

  /** A message bubble; its id is the widget's key. */
  datatype Bubble = Bubble(key: string, owner: Owner, text: string, time: string)

  datatype Item = Stretch | Widget(bubble: Bubble)

  function Shown(layout: seq<Item>): (bubbles: seq<Bubble>)
  {
    if layout == [] then []
    else (if layout[0].Widget? then [layout[0].bubble] else []) + Shown(layout[1..])
  }

  predicate HasKey(bubbles: seq<Bubble>, key: string)
  {
    exists b <- bubbles :: b.key == key
  }

  /** `bubbles` without the one of that key. */
  function Without(bubbles: seq<Bubble>, key: string): (r: seq<Bubble>)
  {
    if bubbles == [] then []
    else if bubbles[0].key == key then bubbles[1..]
    else [bubbles[0]] + Without(bubbles[1..], key)
  }

  /** The layout is widgets with distinct keys above the stretch, and the map holds exactly those. */
  ghost predicate Consistent(layout: seq<Item>, wids: map<string, Bubble>)
  {
    && layout != [] && layout[|layout| - 1] == Stretch
    && (forall i :: 0 <= i < |layout| - 1 ==> Recorded(layout[i], wids))
    && (forall i, j :: 0 <= i < j < |layout| - 1 ==> layout[i] != layout[j])
    && (forall key <- wids :: LaidOut(layout, wids[key], key))
  }

  predicate Recorded(item: Item, wids: map<string, Bubble>)
  {
    item.Widget? && item.bubble.key in wids && wids[item.bubble.key] == item.bubble
  }

  ghost predicate LaidOut(layout: seq<Item>, b: Bubble, key: string)
  {
    b.key == key && exists i :: 0 <= i < |layout| - 1 && layout[i] == Widget(b)
  }

  class CustomerScrollWidget {
    var wids: map<string, Bubble>
    var layout: seq<Item>

    ghost predicate Valid()
      reads this
    {
      Consistent(layout, wids)
    }

    ghost function Bubbles(): (s: seq<Bubble>)
      reads this
    {
      Shown(layout)
    }

    constructor ()
      ensures Valid() && Bubbles() == []
    {
      wids, layout := map[], [Stretch];
    }

    predicate ContainId(id: string)
      reads this
      requires Valid()
      ensures ContainId(id) <==> HasKey(Bubbles(), id)
    {
      KeysShown(layout, wids, id);
      id in wids
    }

    /** Appends above the stretch, unless a widget with that id is there. */
    method AppendWidget(id: string, w: Bubble)
      requires Valid() && w.key == id
      modifies this
      ensures Valid()
      ensures Bubbles() == if HasKey(old(Bubbles()), id) then old(Bubbles()) else old(Bubbles()) + [w]
    {
      KeysShown(layout, wids, id);
      if id in wids {
        return;
      }
      AppendFacts(layout, wids, w);
      var at := |layout| - 1;
      layout := layout[..at] + [Widget(w)] + layout[at..];
      wids := wids[id := w];
    }

    /** Removes the widget of that id; without one only a null widget would be removed, which does nothing. */
    method RemoveWidget(id: string)
      requires Valid()
      modifies this
      ensures Valid() && Bubbles() == Without(old(Bubbles()), id)
    {
      KeysShown(layout, wids, id);
      if id !in wids {
        WithoutAbsent(Bubbles(), id);
        return;
      }
      assert LaidOut(layout, wids[id], id);
      var i := IndexOf(wids[id]);
      RemoveConsistent(layout, wids, i, id);
      ShownRemove(layout, i, id);
      layout := layout[..i] + layout[i + 1..];
      wids := wids - {id};
    }

    /** The search QLayout::removeWidget makes. */
    method IndexOf(w: Bubble) returns (i: nat)
      requires Widget(w) in layout
      ensures i < |layout| && layout[i] == Widget(w)
      ensures forall j :: 0 <= j < i ==> layout[j] != Widget(w)
    {
      i := 0;
      while layout[i] != Widget(w)
        invariant i < |layout|
        invariant forall j :: 0 <= j < i ==> layout[j] != Widget(w)
        decreases |layout| - i
      {
        i := i + 1;
      }
    }
  }

  lemma AppendFacts(layout: seq<Item>, wids: map<string, Bubble>, w: Bubble)
    requires Consistent(layout, wids) && w.key !in wids
    ensures var layout' := layout[..|layout| - 1] + [Widget(w)] + layout[|layout| - 1..];
            Consistent(layout', wids[w.key := w]) && Shown(layout') == Shown(layout) + [w]
  {
    var front := layout[..|layout| - 1];
    Split(layout, |front|);
    assert layout[|front|..] == [Stretch];
    InsertConsistent(front, wids, w);
    ShownInsert(front, w);
  }

  lemma InsertConsistent(front: seq<Item>, wids: map<string, Bubble>, w: Bubble)
    requires Consistent(front + [Stretch], wids) && w.key !in wids
    ensures Consistent(front + [Widget(w)] + [Stretch], wids[w.key := w])
  {
    var n := |front|;
    var layout, layout' := front + [Stretch], front + [Widget(w)] + [Stretch];
    var wids' := wids[w.key := w];
    assert layout'[n] == Widget(w) && layout'[n + 1] == Stretch;
    forall i | 0 <= i < n + 1 ensures Recorded(layout'[i], wids') && (i < n ==> layout'[i] != Widget(w)) {
      if i < n {
        assert layout'[i] == layout[i] && Recorded(layout[i], wids);
      }
    }
    assert forall i :: 0 <= i < n ==> layout'[i] == layout[i];
    forall key | key in wids' ensures LaidOut(layout', wids'[key], key) {
      if key != w.key {
        assert LaidOut(layout, wids[key], key);
        var i :| 0 <= i < n && layout[i] == Widget(wids[key]);
        assert layout'[i] == layout[i];
      }
    }
  }

  lemma RemoveConsistent(layout: seq<Item>, wids: map<string, Bubble>, i: nat, id: string)
    requires Consistent(layout, wids) && i < |layout| - 1 && layout[i].bubble.key == id
    ensures Consistent(layout[..i] + layout[i + 1..], wids - {id})
    ensures forall j :: 0 <= j < i ==> layout[j].bubble.key != id
  {
    var layout' := layout[..i] + layout[i + 1..];
    Spliced(layout, i);
    OthersRecorded(layout, wids, i, id);
    forall j | 0 <= j < |layout'| - 1 ensures Recorded(layout'[j], wids - {id}) {
      assert Recorded(layout[if j < i then j else j + 1], wids - {id});
    }
    forall key | key in wids - {id} ensures LaidOut(layout', wids[key], key) {
      StillLaidOut(layout, wids, i, id, key);
    }
  }

  /** Without its i-th element a list keeps the others, in order. */
  lemma Spliced(layout: seq<Item>, i: nat)
    requires i < |layout|
    ensures var layout' := layout[..i] + layout[i + 1..];
            && |layout'| == |layout| - 1
            && forall j :: 0 <= j < |layout'| ==> layout'[j] == layout[if j < i then j else j + 1]
  {
  }

  lemma StillLaidOut(layout: seq<Item>, wids: map<string, Bubble>, i: nat, id: string, key: string)
    requires Consistent(layout, wids) && i < |layout| - 1 && layout[i].bubble.key == id
    requires key in wids && key != id
    ensures LaidOut(layout[..i] + layout[i + 1..], wids[key], key)
  {
    assert LaidOut(layout, wids[key], key);
    var j :| 0 <= j < |layout| - 1 && layout[j] == Widget(wids[key]);
    Spliced(layout, i);
    assert (layout[..i] + layout[i + 1..])[if j < i then j else j - 1] == layout[j];
  }

  lemma OthersRecorded(layout: seq<Item>, wids: map<string, Bubble>, i: nat, id: string)
    requires Consistent(layout, wids) && i < |layout| - 1 && layout[i].bubble.key == id
    ensures Recorded(layout[i], wids)
    ensures forall j :: 0 <= j < |layout| - 1 && j != i ==>
              Recorded(layout[j], wids - {id}) && layout[j].bubble.key != id
  {
    assert Recorded(layout[i], wids);
    forall j | 0 <= j < |layout| - 1 && j != i ensures Recorded(layout[j], wids - {id}) && layout[j].bubble.key != id {
      assert Recorded(layout[j], wids) && layout[j] != layout[i];
    }
  }

  lemma {:induction false} ShownConcat(a: seq<Item>, b: seq<Item>)
    ensures Shown(a + b) == Shown(a) + Shown(b)
  {
    if a == [] {
      assert a + b == b;
    } else {
      DropOfPrefix(a, b, 1);
      ShownConcat(a[1..], b);
      Assoc(if a[0].Widget? then [a[0].bubble] else [], Shown(a[1..]), Shown(b));
    }
  }

  lemma {:induction false} ShownWidgets(items: seq<Item>)
    requires forall i :: 0 <= i < |items| ==> items[i].Widget?
    ensures |Shown(items)| == |items| && forall i :: 0 <= i < |items| ==> Shown(items)[i] == items[i].bubble
  {
    if items == [] {
    } else {
      ShownWidgets(items[1..]);
    }
  }

  lemma ShownAll(layout: seq<Item>)
    requires layout != [] && layout[|layout| - 1] == Stretch
    requires forall i :: 0 <= i < |layout| - 1 ==> layout[i].Widget?
    ensures |Shown(layout)| == |layout| - 1
    ensures forall i :: 0 <= i < |layout| - 1 ==> Shown(layout)[i] == layout[i].bubble
  {
    var n := |layout| - 1;
    ShownConcat(layout[..n], [Stretch]);
    assert layout == layout[..n] + [Stretch];
    ShownWidgets(layout[..n]);
    assert Shown([Stretch]) == [];
  }

  lemma KeysShown(layout: seq<Item>, wids: map<string, Bubble>, id: string)
    requires Consistent(layout, wids)
    ensures id in wids <==> HasKey(Shown(layout), id)
  {
    ShownAll(layout);
    if id in wids {
      assert LaidOut(layout, wids[id], id);
      var i :| 0 <= i < |layout| - 1 && layout[i] == Widget(wids[id]);
      assert Shown(layout)[i].key == id;
    }
    if HasKey(Shown(layout), id) {
      var i :| 0 <= i < |Shown(layout)| && Shown(layout)[i].key == id;
      assert Recorded(layout[i], wids);
    }
  }

  lemma ShownInsert(front: seq<Item>, w: Bubble)
    ensures Shown(front + [Stretch]) == Shown(front)
    ensures Shown(front + [Widget(w)] + [Stretch]) == Shown(front) + [w]
  {
    ShownConcat(front, [Stretch]);
    ShownConcat(front + [Widget(w)], [Stretch]);
    ShownConcat(front, [Widget(w)]);
    assert Shown([Stretch]) == [] && Shown([Widget(w)]) == [w];
  }

  lemma ShownRemove(layout: seq<Item>, i: nat, id: string)
    requires i < |layout| - 1 && layout[|layout| - 1] == Stretch
    requires forall j :: 0 <= j < |layout| - 1 ==> layout[j].Widget?
    requires layout[i].bubble.key == id
    requires forall j :: 0 <= j < i ==> layout[j].bubble.key != id
    ensures Shown(layout[..i] + layout[i + 1..]) == Without(Shown(layout), id)
  {
    var rest := layout[i + 1..];
    ShownConcat(layout[..i], rest);
    ShownConcat(layout[..i], layout[i..]);
    Split(layout, i);
    assert layout[i..][1..] == rest;
    ShownWidgets(layout[..i]);
    WithoutAfter(Shown(layout[..i]), layout[i].bubble, Shown(rest), id);
  }

  lemma {:induction false} WithoutAfter(a: seq<Bubble>, b: Bubble, c: seq<Bubble>, id: string)
    requires b.key == id && forall i :: 0 <= i < |a| ==> a[i].key != id
    ensures Without(a + ([b] + c), id) == a + c
  {
    var s := a + ([b] + c);
    if a == [] {
      assert s == [b] + c && s[1..] == c;
    } else {
      assert s[1..] == a[1..] + ([b] + c);
      WithoutAfter(a[1..], b, c, id);
    }
  }

  lemma {:induction false} WithoutAbsent(bubbles: seq<Bubble>, key: string)
    requires !HasKey(bubbles, key)
    ensures Without(bubbles, key) == bubbles
  {
    if bubbles == [] {
    } else {
      assert bubbles[0] in bubbles;
      assert forall b <- bubbles[1..] :: b in bubbles;
      WithoutAbsent(bubbles[1..], key);
    }
  }
}
