/** The admin template editor (AdminTemplateEdit.jsx): the 25-slot grid
    rebuilt from a template's items, edited slot by slot, and turned back
    into the item list that is saved. */
module TemplateEditor {
  import opened Wrappers

  const GridSize: nat := 25

  /** Restaurant ids are database keys, so positive and always truthy. */
  type RestaurantId = n: nat | n > 0 witness 1

  /** A template item as loaded; its position is not checked by the server
      response, so any integer. */
  datatype LoadedItem = LoadedItem(position: int, restaurant: RestaurantId)

  /** An item of the saved list. */
  datatype SlotItem = SlotItem(position: nat, restaurant: RestaurantId)

  /** The fields of a template response the editor reads. */
  datatype TemplateData = TemplateData(title: Option<string>, category: Option<string>,
                                       isActive: Option<bool>, items: Option<seq<LoadedItem>>)

  /** The body of a create or update request. */
  datatype SubmitData = SubmitData(title: string, category: Option<string>, isActive: bool, items: seq<SlotItem>)

  function EmptySlots(): (slots: seq<Option<RestaurantId>>)
    ensures |slots| == GridSize
    ensures forall p :: 0 <= p < |slots| ==> slots[p] == None
  {
    seq(GridSize, _ => None)
  }

  /** The grid after placing `items` one after the other on `slots`. */
  function Placed(slots: seq<Option<RestaurantId>>, items: seq<LoadedItem>): (r: seq<Option<RestaurantId>>)
    ensures |r| == |slots|
    decreases |items|
  {
    if items == [] then slots
    else
      var it := items[|items| - 1];
      var before := Placed(slots, items[..|items| - 1]);
      if 0 <= it.position < |before| then before[it.position := Some(it.restaurant)] else before
  }

  /** The restaurant of the last item of `items` at position `p`, if any. */
  function LastAt(items: seq<LoadedItem>, p: int): (r: Option<RestaurantId>)
    ensures r.None? <==> forall k :: 0 <= k < |items| ==> items[k].position != p
    ensures r.Some? ==> exists k :: 0 <= k < |items| && items[k] == LoadedItem(p, r.value)
  {
    if items == [] then None
    else if items[|items| - 1].position == p then Some(items[|items| - 1].restaurant)
    else LastAt(items[..|items| - 1], p)
  }

  /** The rebuild loop of fetchTemplate: every in-range item writes its
      restaurant into its slot, so later items overwrite earlier ones, and
      an out-of-range item is dropped. */
  method LoadSlots(items: seq<LoadedItem>) returns (slots: array<Option<RestaurantId>>)
    ensures fresh(slots)
    ensures slots.Length == GridSize
    ensures slots[..] == Placed(EmptySlots(), items)
  {
    slots := new Option<RestaurantId>[GridSize](_ => None);
    assert slots[..] == EmptySlots();
    var i := 0;
    while i < |items|
      invariant 0 <= i <= |items|
      invariant slots[..] == Placed(EmptySlots(), items[..i])
    {
      assert items[..i + 1][..i] == items[..i];
      if items[i].position >= 0 && items[i].position < GridSize {
        slots[items[i].position] := Some(items[i].restaurant);
      }
      i := i + 1;
    }
    assert items[..i] == items;
  }

  /** Slot p of the rebuilt grid holds the restaurant of the last item at
      position p. */
  lemma {:induction false} PlacedIsLastAt(items: seq<LoadedItem>, p: nat)
    requires p < GridSize
    ensures Placed(EmptySlots(), items)[p] == LastAt(items, p)
    decreases |items|
  {
    if items != [] {
      PlacedIsLastAt(items[..|items| - 1], p);
    }
  }

  /** handleItemChange on the grid's slot values: one slot takes the chosen
      restaurant or becomes empty, the others stay. */
  function WithItem(slots: seq<Option<RestaurantId>>, position: nat, choice: Option<RestaurantId>): (r: seq<Option<RestaurantId>>)
    requires position < |slots|
    ensures |r| == |slots| && r[position] == choice
    ensures forall p :: 0 <= p < |slots| && p != position ==> r[p] == slots[p]
  {
    slots[position := choice]
  }

  /** The items for the slots from index `from` on: the map-then-filter of
      handleSubmit. */
  function ItemsFrom(slots: seq<Option<RestaurantId>>, from: nat): (r: seq<SlotItem>)
    requires from <= |slots|
    ensures |r| <= |slots| - from
    ensures forall k :: 0 <= k < |r| ==> from <= r[k].position < |slots| && slots[r[k].position] == Some(r[k].restaurant)
    ensures forall k, l :: 0 <= k < l < |r| ==> r[k].position < r[l].position
    ensures forall p :: from <= p < |slots| && slots[p].Some? ==> SlotItem(p, slots[p].value) in r
    decreases |slots| - from
  {
    if from == |slots| then []
    else (if slots[from].Some? then [SlotItem(from, slots[from].value)] else []) + ItemsFrom(slots, from + 1)
  }

  /** The submitted item list. */
  function SubmittedItems(slots: seq<Option<RestaurantId>>): (r: seq<SlotItem>)
    ensures forall k :: 0 <= k < |r| ==> r[k].position < |slots| && slots[r[k].position] == Some(r[k].restaurant)
    ensures forall k, l :: 0 <= k < l < |r| ==> r[k].position < r[l].position
    ensures forall p :: 0 <= p < |slots| && slots[p].Some? ==> SlotItem(p, slots[p].value) in r
  {
    ItemsFrom(slots, 0)
  }

  /** filledCount: the number of nonempty slots from `from` on. */
  function FilledFrom(slots: seq<Option<RestaurantId>>, from: nat): nat
    requires from <= |slots|
    decreases |slots| - from
  {
    if from == |slots| then 0 else (if slots[from].Some? then 1 else 0) + FilledFrom(slots, from + 1)
  }

  function FilledCount(slots: seq<Option<RestaurantId>>): nat {
    FilledFrom(slots, 0)
  }

  /** The counter under the grid is the length of the list that is saved,
      so never more than the slots. */
  lemma {:induction false} FilledFromIsItemCount(slots: seq<Option<RestaurantId>>, from: nat)
    requires from <= |slots|
    ensures FilledFrom(slots, from) == |ItemsFrom(slots, from)| <= |slots| - from
    decreases |slots| - from
  {
    if from < |slots| {
      FilledFromIsItemCount(slots, from + 1);
    }
  }

  lemma FilledCountIsItemCount(slots: seq<Option<RestaurantId>>)
    requires |slots| == GridSize
    ensures FilledCount(slots) == |SubmittedItems(slots)| <= GridSize
  {
    FilledFromIsItemCount(slots, 0);
  }

  /** Loading items whose positions are distinct and on the grid, then
      saving without edits, gives back exactly those items, ordered by
      position. */
  lemma RoundTrip(items: seq<LoadedItem>)
    requires forall k :: 0 <= k < |items| ==> 0 <= items[k].position < GridSize
    requires forall k, l :: 0 <= k < l < |items| ==> items[k].position != items[l].position
    ensures var r := SubmittedItems(Placed(EmptySlots(), items));
      && (forall k, l :: 0 <= k < l < |r| ==> r[k].position < r[l].position)
      && (forall p: nat, id :: SlotItem(p, id) in r <==> LoadedItem(p, id) in items)
  {
    var slots := Placed(EmptySlots(), items);
    var r := SubmittedItems(slots);
    forall p: nat, id | SlotItem(p, id) in r ensures LoadedItem(p, id) in items {
      var k :| 0 <= k < |r| && r[k] == SlotItem(p, id);
      PlacedIsLastAt(items, p);
      var j :| 0 <= j < |items| && items[j] == LoadedItem(p, id);
    }
    forall p: nat, id | LoadedItem(p, id) in items ensures SlotItem(p, id) in r {
      var j :| 0 <= j < |items| && items[j] == LoadedItem(p, id);
      PlacedIsLastAt(items, p);
      var k :| 0 <= k < |items| && items[k] == LoadedItem(p, slots[p].value);
      assert k == j;
    }
  }

  // ---------------------------------------------------------------------
  // The title check

  /** The characters String.prototype.trim removes: white space and line
      terminators. */
  predicate IsJsWhitespace(c: char) {
    var n := c as int;
    || n in {0x09, 0x0A, 0x0B, 0x0C, 0x0D, 0x20, 0xA0, 0x1680, 0x2028, 0x2029, 0x202F, 0x205F, 0x3000, 0xFEFF}
    || 0x2000 <= n <= 0x200A
  }

  function TrimStart(s: string): (r: string)
    ensures |r| <= |s| && r == s[|s| - |r|..]
    ensures r == [] || !IsJsWhitespace(r[0])
  {
    if s != [] && IsJsWhitespace(s[0]) then TrimStart(s[1..]) else s
  }

  function TrimEnd(s: string): (r: string)
    ensures |r| <= |s| && r == s[..|r|]
    ensures r == [] || !IsJsWhitespace(r[|r| - 1])
  {
    if s != [] && IsJsWhitespace(s[|s| - 1]) then TrimEnd(s[..|s| - 1]) else s
  }

  function Trim(s: string): string {
    TrimEnd(TrimStart(s))
  }

  /** TrimStart leaves nothing exactly when every character is white space. */
  lemma {:induction false} TrimStartEmpty(s: string)
    ensures TrimStart(s) == [] <==> forall i :: 0 <= i < |s| ==> IsJsWhitespace(s[i])
  {
    if s != [] && IsJsWhitespace(s[0]) {
      TrimStartEmpty(s[1..]);
      assert forall i :: 1 <= i < |s| ==> s[i] == s[1..][i - 1];
    }
  }

  /** A title trims to nothing exactly when it is empty or all white space. */
  lemma TrimEmpty(s: string)
    ensures Trim(s) == [] <==> forall i :: 0 <= i < |s| ==> IsJsWhitespace(s[i])
  {
    TrimStartEmpty(s);
    var t := TrimStart(s);
    if t != [] {
      assert TrimEnd(t) != [] by {
        if TrimEnd(t) == [] {
          assert !IsJsWhitespace(t[0]);
          TrimEndKeepsFirst(t);
        }
      }
    }
  }

  /** TrimEnd stops at the latest at a first character that is not white
      space. */
  lemma {:induction false} TrimEndKeepsFirst(t: string)
    requires t != [] && !IsJsWhitespace(t[0])
    ensures TrimEnd(t) != []
  {
    if |t| > 1 && IsJsWhitespace(t[|t| - 1]) {
      TrimEndKeepsFirst(t[..|t| - 1]);
    }
  }

  // ---------------------------------------------------------------------
  // The editor

  class Editor {
    var title: string
    var category: string
    var isActive: bool
    var slots: seq<Option<RestaurantId>>
    /** Every create or update request sent, in order. */
    var saves: seq<SubmitData>

    ghost predicate Valid()
      reads this
    {
      |slots| == GridSize
    }

    /** A new template: empty title and category, active, 25 empty slots. */
    constructor ()
      ensures Valid()
      ensures title == "" && category == "" && isActive
      ensures slots == EmptySlots() && saves == []
    {
      title := "";
      category := "";
      isActive := true;
      slots := EmptySlots();
      saves := [];
    }

    /** fetchTemplate after a successful response: missing texts become
        empty, a missing is_active becomes true, and the grid is rebuilt
        from the items. */
    method Load(data: TemplateData)
      modifies this
      ensures Valid()
      ensures title == (if data.title.Some? then data.title.value else "")
      ensures category == (if data.category.Some? then data.category.value else "")
      ensures isActive == (data.isActive.None? || data.isActive.value)
      ensures data.items.Some? ==> slots == Placed(EmptySlots(), data.items.value)
      ensures data.items.None? ==> slots == EmptySlots()
      ensures saves == old(saves)
    {
      var grid: array<Option<RestaurantId>>;
      if data.items.Some? {
        grid := LoadSlots(data.items.value);
      } else {
        grid := new Option<RestaurantId>[GridSize](_ => None);
        assert grid[..] == EmptySlots();
      }
      title := if data.title.Some? then data.title.value else "";
      category := if data.category.Some? then data.category.value else "";
      isActive := if data.isActive.Some? then data.isActive.value else true;
      slots := grid[..];
    }

    /** handleItemChange: a copy of the grid with one slot replaced. */
    method HandleItemChange(position: nat, choice: Option<RestaurantId>)
      requires Valid() && position < GridSize
      modifies this
      ensures Valid()
      ensures slots == WithItem(old(slots), position, choice)
      ensures title == old(title) && category == old(category) && isActive == old(isActive)
      ensures saves == old(saves)
    {
      slots := slots[position := choice];
    }

    /** handleSubmit: a blank title aborts with nothing sent; otherwise the
        nonempty slots are sent as the item list, with an empty category
        sent as null. */
    method HandleSubmit() returns (sent: bool)
      requires Valid()
      modifies this
      ensures Valid()
      ensures sent <==> Trim(title) != ""
      ensures !sent ==> saves == old(saves)
      ensures sent ==>
        (saves == old(saves) +
         [SubmitData(title, if category == "" then None else Some(category), isActive, SubmittedItems(slots))])
      ensures title == old(title) && category == old(category) && isActive == old(isActive)
      ensures slots == old(slots)
    {
      if Trim(title) == "" {
        return false;
      }
      var items := SubmittedItems(slots);
      var data := SubmitData(title, if category == "" then None else Some(category), isActive, items);
      saves := saves + [data];
      sent := true;
    }
  }
}
