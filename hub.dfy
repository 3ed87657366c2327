/**
 * A job-site hub on the whiteboard: its occupancy (four fixed role flags, the
 * ordered electrician roster, the collapsed flag), the box geometry derived
 * from the hub rectangle and the zoom scale, where occupants are placed inside
 * the boxes, the save/restore record of the occupancy, and the hub's name.
 *
 * The drawing canvas is not modelled as an object: the coordinates the hub
 * passes to it are fields and results, and the canvas's knowledge of which
 * item ids exist (and of what type they are) is the parameter `items`.
 */
module JobSiteHub {
  import opened Wrappers
  import opened Strings

  /** Height of each fixed-role box, before scaling. */
  const BoxHeight: real := 70.0
  /** Height of the expanded electrician box, before scaling. */
  const ElectricianBoxHeight: real := 730.0
  /** Size of a freshly created hub rectangle. */
  const HubWidth: real := 320.0
  const HubHeight: real := 800.0
  /** Vertical step between roster occupants: a 30-unit row plus 10 of padding. */
  const RosterRowHeight: real := 30.0
  const RosterPadding: real := 10.0
  /** Horizontal offset of an occupant's name label inside its box (not scaled). */
  const LabelOffset: real := 35.0

  datatype Rect = Rect(x1: real, y1: real, x2: real, y2: real)

  datatype Point = Point(x: real, y: real)

  /** An employee label moved to a point. */
  datatype Placement = Placement(id: int, at: Point)

  /** The five boxes of a hub, as last passed to the canvas. */
  datatype Boxes = Boxes(pm: Rect, gm: Rect, foreman: Rect, superBox: Rect, electrician: Rect)
  {
    /** The fixed-role boxes in drawing order: PM, GM, Foreman, Super. */
    function Fixed(k: nat): Rect
      requires k < 4
    {
      [pm, gm, foreman, superBox][k]
    }
  }

  /** Everything `update_positions` writes to the canvas for one hub. */
  datatype Layout = Layout(boxes: Boxes, collapseLabel: string, collapseButton: Point, eraseButton: Point)

  // ---------------------------------------------------------------------------
  // Box geometry
  // ---------------------------------------------------------------------------

  /** The geometry `update_positions` derives from the hub rectangle `area`,
      the scale `s` and the collapsed flag. */
  function ComputeLayout(area: Rect, s: real, collapsed: bool): Layout
  {
    var x1, y1 := area.x1, area.y1;
    var width, height := area.x2 - area.x1, area.y2 - area.y1;
    var pm := Rect(x1 + 10.0 * s, y1 + 10.0 * s,
                   x1 + width - 10.0 * s, y1 + 10.0 * s + BoxHeight * s);
    var gm := Rect(x1 + 10.0 * s, y1 + 20.0 * s + BoxHeight * s,
                   x1 + width - 10.0 * s, y1 + 20.0 * s + 2.0 * BoxHeight * s);
    var foreman := Rect(x1 + 10.0 * s, y1 + 30.0 * s + 2.0 * BoxHeight * s,
                        x1 + width - 10.0 * s, y1 + 30.0 * s + 3.0 * BoxHeight * s);
    var superBox := Rect(x1 + 10.0 * s, y1 + 40.0 * s + 3.0 * BoxHeight * s,
                         x1 + width - 10.0 * s, y1 + 40.0 * s + 4.0 * BoxHeight * s);
    var electrician :=
      if !collapsed then
        Rect(x1 + 10.0 * s, y1 + height - ElectricianBoxHeight * s - 10.0 * s,
             x1 + width - 10.0 * s, y1 + height - 10.0 * s)
      else
        Rect(x1 + 10.0 * s, y1 + height - 50.0 * s, x1 + width - 10.0 * s, y1 + height - 10.0 * s);
    Layout(Boxes(pm, gm, foreman, superBox, electrician),
           if !collapsed then "[-]" else "[+]",
           Point(x1 + 15.0 * s, area.y2 - 15.0 * s),
           Point(area.x2 - 15.0 * s, y1 + 15.0 * s))
  }

  /** Fixed box k (0 = PM, 1 = GM, 2 = Foreman, 3 = Super) spans the hub's width
      less a 10s margin on each side; its top lies (k + 1) margins and k box
      heights below the hub's top, and it is one box height tall. */
  lemma FixedBoxGeometry(area: Rect, s: real, collapsed: bool, k: nat)
    requires k < 4
    ensures var b := ComputeLayout(area, s, collapsed).boxes.Fixed(k);
            b.x1 == area.x1 + 10.0 * s && b.x2 == area.x2 - 10.0 * s
            && b.y1 == area.y1 + 10.0 * (k + 1) as real * s + k as real * BoxHeight * s
            && b.y2 == b.y1 + BoxHeight * s
  {
    var L := ComputeLayout(area, s, collapsed);
    if k == 0 {
      assert L.boxes.Fixed(0) == L.boxes.pm;
    } else if k == 1 {
      assert L.boxes.Fixed(1) == L.boxes.gm;
    } else if k == 2 {
      assert L.boxes.Fixed(2) == L.boxes.foreman;
    } else {
      assert L.boxes.Fixed(3) == L.boxes.superBox;
    }
  }

  /** For a positive scale, consecutive fixed boxes are separated by exactly a
      10s gap, so none of them overlaps the next, and each has positive height. */
  lemma FixedBoxesSeparated(area: Rect, s: real, collapsed: bool, k: nat)
    requires s > 0.0 && k < 3
    ensures var B := ComputeLayout(area, s, collapsed).boxes;
            B.Fixed(k).y1 < B.Fixed(k).y2
            && B.Fixed(k + 1).y1 == B.Fixed(k).y2 + 10.0 * s
            && B.Fixed(k).y2 < B.Fixed(k + 1).y1
  {
    FixedBoxGeometry(area, s, collapsed, k);
    FixedBoxGeometry(area, s, collapsed, k + 1);
  }

  /** The electrician box shares the fixed boxes' horizontal extent and ends
      10s above the hub's bottom in both modes; expanded it is 730s tall,
      collapsed 40s; the button reads "[-]" expanded and "[+]" collapsed. */
  lemma ElectricianBoxGeometry(area: Rect, s: real, collapsed: bool)
    ensures var L := ComputeLayout(area, s, collapsed);
            var e := L.boxes.electrician;
            e.x1 == area.x1 + 10.0 * s && e.x2 == area.x2 - 10.0 * s
            && e.y2 == area.y2 - 10.0 * s
            && e.y1 == (if collapsed then area.y2 - 50.0 * s
                        else area.y2 - (ElectricianBoxHeight + 10.0) * s)
            && L.collapseLabel == (if collapsed then "[+]" else "[-]")
  {
  }

  /** The expanded electrician box starts below the Super box exactly when the
      hub is taller than 1060 scaled units (four boxes, five gaps, 730 + 10 for
      the roster box); nothing in the hub enforces that. */
  lemma ElectricianBoxClearsFixedIff(area: Rect, s: real)
    requires s > 0.0
    ensures var B := ComputeLayout(area, s, false).boxes;
            B.superBox.y2 < B.electrician.y1 <==> area.y2 - area.y1 > 1060.0 * s
  {
    FixedBoxGeometry(area, s, false, 3);
  }

  /** At the size a hub is created with (800 tall) and scale 1, the expanded
      electrician box starts 60 below the hub's top, inside the PM box. */
  lemma ElectricianBoxOverlapsAtCreationSize(x: real, y: real)
    ensures var B := ComputeLayout(Rect(x, y, x + HubWidth, y + HubHeight), 1.0, false).boxes;
            B.electrician.y1 == y + 60.0 && B.pm.y1 < B.electrician.y1 < B.pm.y2
  {
  }

  // ---------------------------------------------------------------------------
  // Where occupants are placed
  // ---------------------------------------------------------------------------

  /** Python truthiness of an optional employee id: present and not 0. */
  predicate Truthy(id: Option<int>) {
    id.Some? && id.value != 0
  }

  /** Point at which roster occupant number `index` is placed inside `box`. */
  function RosterSlot(box: Rect, appScale: real, index: nat): Point {
    Point(box.x1 + LabelOffset, box.y1 + index as real * (RosterRowHeight + RosterPadding) * appScale)
  }

  /** Placement of a fixed-slot occupant: the label offset from the box's top-left
      corner, if the id found for the role is truthy. */
  function FixedSlotPlacement(box: Rect, id: Option<int>): (r: seq<Placement>)
    ensures |r| <= 1
    ensures Truthy(id) <==> r != []
    ensures forall p :: p in r ==> p.id == id.value && p.at.x == box.x1 + LabelOffset && p.at.y == box.y1
  {
    if Truthy(id) then [Placement(id.value, Point(box.x1 + LabelOffset, box.y1))] else []
  }

  /** Labels placed for the first n roster entries: occupant i goes to
      `RosterSlot(i)`, provided the canvas holds it as a text item. */
  function RosterPlacements(roster: seq<int>, items: map<int, string>, box: Rect, appScale: real, n: nat): seq<Placement>
    requires n <= |roster|
  {
    if n == 0 then []
    else
      RosterPlacements(roster, items, box, appScale, n - 1)
      + (if roster[n - 1] in items && items[roster[n - 1]] == "text"
         then [Placement(roster[n - 1], RosterSlot(box, appScale, n - 1))] else [])
  }

  /** When every roster entry is a text label, occupant i of the roster is
      placed at the i-th slot: the roster order is the stacking order. */
  lemma {:induction false} RosterPlacementsStack(roster: seq<int>, items: map<int, string>, box: Rect, appScale: real, n: nat)
    requires n <= |roster|
    requires forall i :: 0 <= i < |roster| ==> roster[i] in items && items[roster[i]] == "text"
    ensures var P := RosterPlacements(roster, items, box, appScale, n);
            |P| == n
            && forall i :: 0 <= i < n ==>
                 P[i] == Placement(roster[i], Point(box.x1 + LabelOffset, box.y1 + i as real * 40.0 * appScale))
  {
    if n > 0 {
      RosterPlacementsStack(roster, items, box, appScale, n - 1);
    }
  }

  /** Each placed label is a roster entry held by the canvas as text, so the
      number of labels placed never exceeds the roster's length. */
  lemma {:induction false} RosterPlacementsFromRoster(roster: seq<int>, items: map<int, string>, box: Rect, appScale: real, n: nat)
    requires n <= |roster|
    ensures var P := RosterPlacements(roster, items, box, appScale, n);
            |P| <= n
            && forall p :: p in P ==> p.id in roster[..n] && p.id in items && items[p.id] == "text"
  {
    if n > 0 {
      RosterPlacementsFromRoster(roster, items, box, appScale, n - 1);
      assert roster[..n - 1] <= roster[..n];
    }
  }

  /** An application employee label, with the hub whose box it is snapped to. */
  datatype EmployeeLabel = EmployeeLabel(id: int, role: string, snappedTo: Option<Hub>)

  predicate SnappedWithRole(l: EmployeeLabel, role: string, h: Hub) {
    l.role == role && l.snappedTo == Some(h)
  }

  /** The id of the first label with `role` snapped to hub `h`, if any. */
  function FirstSnapped(labels: seq<EmployeeLabel>, role: string, h: Hub): (id: Option<int>)
    ensures id.Some? ==> exists k :: 0 <= k < |labels| && labels[k].id == id.value
                           && SnappedWithRole(labels[k], role, h)
                           && forall j :: 0 <= j < k ==> !SnappedWithRole(labels[j], role, h)
    ensures id.None? <==> forall k :: 0 <= k < |labels| ==> !SnappedWithRole(labels[k], role, h)
  {
    if labels == [] then None
    else if SnappedWithRole(labels[0], role, h) then Some(labels[0].id)
    else
      var id := FirstSnapped(labels[1..], role, h);
      assert forall k :: 1 <= k < |labels| ==> labels[k] == labels[1..][k - 1];
      id
  }

  /** The first label of `role` snapped to `h`, if there is one. */
  predicate FirstWithRole(labels: seq<EmployeeLabel>, role: string, h: Hub, k: int) {
    0 <= k < |labels| && SnappedWithRole(labels[k], role, h)
    && forall j :: 0 <= j < k ==> !SnappedWithRole(labels[j], role, h)
  }

  /** A fixed box shows at most one occupant: the first label of its role
      snapped to the hub, at the box's top edge 35 units in. Nothing is placed
      exactly when no label qualifies or the first one has id 0. */
  lemma FixedOccupantPlacement(box: Rect, labels: seq<EmployeeLabel>, role: string, h: Hub)
    ensures var P := FixedSlotPlacement(box, FirstSnapped(labels, role, h));
            |P| <= 1
            && (P != [] ==> exists k :: FirstWithRole(labels, role, h, k) && labels[k].id != 0
                              && P[0] == Placement(labels[k].id, Point(box.x1 + LabelOffset, box.y1)))
            && (P == [] <==> forall k :: FirstWithRole(labels, role, h, k) ==> labels[k].id == 0)
  {
  }

  // ---------------------------------------------------------------------------
  // The roster as a sequence
  // ---------------------------------------------------------------------------

  predicate NoDuplicates(s: seq<int>) {
    forall i, j :: 0 <= i < j < |s| ==> s[i] != s[j]
  }

  /** The roster entries the canvas still knows, in their original order. */
  function LiveOnly(roster: seq<int>, items: map<int, string>): (r: seq<int>)
    ensures |r| <= |roster|
  {
    if roster == [] then []
    else LiveOnly(roster[..|roster| - 1], items)
         + (if roster[|roster| - 1] in items then [roster[|roster| - 1]] else [])
  }

  /** The filtered roster holds exactly the entries the canvas knows. */
  lemma {:induction false} LiveOnlyMembers(roster: seq<int>, items: map<int, string>, x: int)
    ensures x in LiveOnly(roster, items) <==> x in roster && x in items
  {
    if roster != [] {
      var front := roster[..|roster| - 1];
      LiveOnlyMembers(front, items, x);
      assert roster == front + [roster[|roster| - 1]];
    }
  }

  /** Filtering works element by element, so it keeps the relative order:
      the filtered concatenation is the concatenation of the filtered parts. */
  lemma {:induction false} LiveOnlyAppend(a: seq<int>, b: seq<int>, items: map<int, string>)
    ensures LiveOnly(a + b, items) == LiveOnly(a, items) + LiveOnly(b, items)
    decreases |b|
  {
    if b == [] {
      assert a + b == a;
    } else {
      var front, last := b[..|b| - 1], b[|b| - 1];
      var tail := if last in items then [last] else [];
      assert (a + b)[..|a + b| - 1] == a + front;
      assert (a + b)[|a + b| - 1] == last;
      assert LiveOnly(a + b, items) == LiveOnly(a + front, items) + tail;
      LiveOnlyAppend(a, front, items);
      assert LiveOnly(b, items) == LiveOnly(front, items) + tail;
    }
  }

  /** A roster whose entries all exist is left as it is. */
  lemma {:induction false} LiveOnlyKeepsLive(roster: seq<int>, items: map<int, string>)
    requires forall i :: 0 <= i < |roster| ==> roster[i] in items
    ensures LiveOnly(roster, items) == roster
  {
    if roster != [] {
      var front := roster[..|roster| - 1];
      LiveOnlyKeepsLive(front, items);
      assert LiveOnly(roster, items) == front + [roster[|roster| - 1]];
      assert front + [roster[|roster| - 1]] == roster;
    }
  }

  /** Filtering twice is filtering once. */
  lemma LiveOnlyIdempotent(roster: seq<int>, items: map<int, string>)
    ensures LiveOnly(LiveOnly(roster, items), items) == LiveOnly(roster, items)
  {
    var r := LiveOnly(roster, items);
    assert forall i :: 0 <= i < |r| ==> r[i] in items by {
      forall i | 0 <= i < |r| ensures r[i] in items {
        assert r[i] in r;
        LiveOnlyMembers(roster, items, r[i]);
      }
    }
    LiveOnlyKeepsLive(r, items);
  }

  /** Filtering cannot create duplicates. */
  lemma {:induction false} LiveOnlyNoDuplicates(roster: seq<int>, items: map<int, string>)
    requires NoDuplicates(roster)
    ensures NoDuplicates(LiveOnly(roster, items))
  {
    if roster != [] {
      var front := roster[..|roster| - 1];
      assert NoDuplicates(front);
      LiveOnlyNoDuplicates(front, items);
      LiveOnlyMembers(front, items, roster[|roster| - 1]);
      assert roster[|roster| - 1] !in front;
    }
  }

  /** Position of the first occurrence of x (`list.index(x)`). */
  function IndexOf(s: seq<int>, x: int): (k: nat)
    requires x in s
    ensures k < |s| && s[k] == x && x !in s[..k]
  {
    if s[0] == x then 0
    else
      var k := IndexOf(s[1..], x) + 1;
      assert s[..k] == [s[0]] + s[1..][..k - 1];
      k
  }

  /** `list.remove(x)`: the first occurrence of x taken out. */
  function RemoveFirst(s: seq<int>, x: int): (r: seq<int>)
    requires x in s
  {
    s[..IndexOf(s, x)] + s[IndexOf(s, x) + 1..]
  }

  /** What `update_occupation` does to the roster of a roster box before the
      roster is re-filtered: remove the id if present when vacating, append a
      truthy id that is absent when occupying. */
  function Occupy(roster: seq<int>, occupied: bool, id: Option<int>): seq<int> {
    if !occupied then
      (if id.Some? && id.value in roster then RemoveFirst(roster, id.value) else roster)
    else
      (if Truthy(id) && id.value !in roster then roster + [id.value] else roster)
  }

  /** Occupying keeps the roster duplicate-free and in insertion order: the id
      ends up in the roster exactly when it is truthy or already there, and
      occupying again with the same id changes nothing. */
  lemma OccupyAdds(roster: seq<int>, id: Option<int>)
    requires NoDuplicates(roster)
    ensures var r := Occupy(roster, true, id);
            NoDuplicates(r) && r[..|roster|] == roster
            && (forall x :: x in r <==> x in roster || (Truthy(id) && x == id.value))
            && Occupy(r, true, id) == r
  {
    var r := Occupy(roster, true, id);
    assert r[..|roster|] == roster;
  }

  /** Removing the first occurrence at position k shifts the later entries
      down by one. */
  lemma RemoveFirstAt(s: seq<int>, x: int)
    requires x in s
    ensures var k, r := IndexOf(s, x), RemoveFirst(s, x);
            |r| == |s| - 1
            && (forall i :: 0 <= i < k ==> r[i] == s[i])
            && (forall i :: k <= i < |r| ==> r[i] == s[i + 1])
  {
  }

  /** Vacating takes the id out of a duplicate-free roster, keeps every other
      entry in its order, and does nothing when the id is absent. */
  lemma OccupyRemoves(roster: seq<int>, id: Option<int>)
    requires NoDuplicates(roster)
    ensures var r := Occupy(roster, false, id);
            NoDuplicates(r)
            && (id.None? || id.value !in roster ==> r == roster)
            && (id.Some? ==> id.value !in r)
            && (forall x :: x in r <==> x in roster && (id.None? || x != id.value))
            && (id.Some? && id.value in roster ==>
                  exists k :: 0 <= k < |roster| && r == roster[..k] + roster[k + 1..])
  {
    if id.Some? && id.value in roster {
      var r := RemoveFirst(roster, id.value);
      var k := IndexOf(roster, id.value);
      RemoveFirstAt(roster, id.value);
      forall i, j | 0 <= i < j < |r| ensures r[i] != r[j] {
        var i' := if i < k then i else i + 1;
        var j' := if j < k then j else j + 1;
        assert r[i] == roster[i'] && r[j] == roster[j'];
      }
      forall x ensures x in r <==> x in roster && x != id.value {
        if x in r {
          var i :| 0 <= i < |r| && r[i] == x;
          var i' := if i < k then i else i + 1;
          assert r[i] == roster[i'] && i' != k;
        }
        if x in roster && x != id.value {
          var i :| 0 <= i < |roster| && roster[i] == x;
          assert i != k;
          if i < k { assert r[i] == x; } else { assert r[i - 1] == x; }
        }
      }
    }
  }

  // ---------------------------------------------------------------------------
  // The saved occupation record
  // ---------------------------------------------------------------------------

  /** The value stored under "Electrician": normally the id list; older records
      stored a boolean there. */
  datatype RosterValue = IdList(ids: seq<int>) | Flag(b: bool)

  /** The dictionary exchanged by `get_occupation_status` and
      `set_occupation_status`; `None` is a missing key. */
  datatype Status = Status(
    pm: Option<bool>, gm: Option<bool>, foreman: Option<bool>, superOcc: Option<bool>,
    electrician: Option<RosterValue>,
    electricianBoxCoords: Option<Rect>, pmCoords: Option<Rect>, gmCoords: Option<Rect>,
    foremanCoords: Option<Rect>, superCoords: Option<Rect>,
    collapsed: Option<bool>)

  /** The part of a hub the occupation record saves and restores. */
  datatype Occupancy = Occupancy(pm: bool, gm: bool, foreman: bool, superOcc: bool,
                                 roster: seq<int>, collapsed: bool, boxes: Boxes)

  /** The outcome of applying a record: the fields as written so far and, when a
      required key was missing, its name (Python raises `KeyError` there, after
      the assignments before it have already happened). */
  datatype Applied = Applied(occ: Occupancy, missing: Option<string>)

  const Origin: Rect := Rect(0.0, 0.0, 0.0, 0.0)

  /** `get_occupation_status`: every key present, so restoring the record on
      the hub it came from completes and changes nothing. */
  function StatusOf(o: Occupancy): (st: Status)
    ensures st.pm.Some? && st.gm.Some? && st.foreman.Some? && st.superOcc.Some?
    ensures st.electrician == Some(IdList(o.roster)) && st.collapsed == Some(o.collapsed)
    ensures ApplyStatus(o, st) == Applied(o, None)
  {
    Status(Some(o.pm), Some(o.gm), Some(o.foreman), Some(o.superOcc),
           Some(IdList(o.roster)),
           Some(o.boxes.electrician), Some(o.boxes.pm), Some(o.boxes.gm),
           Some(o.boxes.foreman), Some(o.boxes.superBox),
           Some(o.collapsed))
  }

  function CoordsOr(c: Option<Rect>): Rect {
    if c.Some? then c.value else Origin
  }

  /** `set_occupation_status` on the occupation fields. */
  function ApplyStatus(o: Occupancy, st: Status): (r: Applied)
    // A missing role flag stops the restore with that key's name; the flags
    // before it have been written, nothing after it.
    ensures st.pm.None? ==> r == Applied(o, Some("PM"))
    ensures st.pm.Some? && st.gm.None? ==> r == Applied(o.(pm := st.pm.value), Some("GM"))
    ensures st.pm.Some? && st.gm.Some? && st.foreman.None? ==>
              r == Applied(o.(pm := st.pm.value, gm := st.gm.value), Some("Foreman"))
    ensures st.pm.Some? && st.gm.Some? && st.foreman.Some? && st.superOcc.None? ==>
              r == Applied(o.(pm := st.pm.value, gm := st.gm.value, foreman := st.foreman.value), Some("Super"))
    ensures r.missing.None? <==> st.pm.Some? && st.gm.Some? && st.foreman.Some? && st.superOcc.Some?
    // With the four flags present, every key present is written.
    ensures r.missing.None? ==>
              r.occ.pm == st.pm.value && r.occ.gm == st.gm.value
              && r.occ.foreman == st.foreman.value && r.occ.superOcc == st.superOcc.value
              && (st.electrician.Some? && st.electrician.value.IdList? ==> r.occ.roster == st.electrician.value.ids)
              && (st.collapsed.Some? ==> r.occ.collapsed == st.collapsed.value)
              && (st.pmCoords.Some? ==> r.occ.boxes.pm == st.pmCoords.value)
              && (st.gmCoords.Some? ==> r.occ.boxes.gm == st.gmCoords.value)
              && (st.foremanCoords.Some? ==> r.occ.boxes.foreman == st.foremanCoords.value)
              && (st.superCoords.Some? ==> r.occ.boxes.superBox == st.superCoords.value)
              && (st.electricianBoxCoords.Some? ==> r.occ.boxes.electrician == st.electricianBoxCoords.value)
    // With the four flags present, the optional keys fall back to defaults.
    ensures r.missing.None? ==>
              (st.electrician.None? || st.electrician.value.Flag? ==> r.occ.roster == [])
              && (st.collapsed.None? ==> !r.occ.collapsed)
              && (st.pmCoords.None? ==> r.occ.boxes.pm == Origin)
              && (st.gmCoords.None? ==> r.occ.boxes.gm == Origin)
              && (st.foremanCoords.None? ==> r.occ.boxes.foreman == Origin)
              && (st.superCoords.None? ==> r.occ.boxes.superBox == Origin)
              && (st.electricianBoxCoords.None? ==> r.occ.boxes.electrician == Origin)
  {
    if st.pm.None? then Applied(o, Some("PM"))
    else if st.gm.None? then Applied(o.(pm := st.pm.value), Some("GM"))
    else if st.foreman.None? then Applied(o.(pm := st.pm.value, gm := st.gm.value), Some("Foreman"))
    else if st.superOcc.None? then
      Applied(o.(pm := st.pm.value, gm := st.gm.value, foreman := st.foreman.value), Some("Super"))
    else
      Applied(Occupancy(st.pm.value, st.gm.value, st.foreman.value, st.superOcc.value,
                        RosterOf(st), CollapsedOf(st), BoxesOf(st)),
              None)
  }

  /** The roster a record restores: the id list, or nothing. */
  function RosterOf(st: Status): seq<int> {
    if st.electrician.Some? && st.electrician.value.IdList? then st.electrician.value.ids else []
  }

  /** The collapsed flag a record restores, false when absent. */
  function CollapsedOf(st: Status): bool {
    if st.collapsed.Some? then st.collapsed.value else false
  }

  /** The box coordinates a record restores, the origin for each one absent. */
  function BoxesOf(st: Status): Boxes {
    Boxes(CoordsOr(st.pmCoords), CoordsOr(st.gmCoords), CoordsOr(st.foremanCoords),
          CoordsOr(st.superCoords), CoordsOr(st.electricianBoxCoords))
  }

  /** Restoring a saved record brings back the four flags, the roster in its
      order, the collapsed flag and the box coordinates, whatever the hub held. */
  lemma StatusRoundTrip(o: Occupancy, current: Occupancy)
    ensures ApplyStatus(current, StatusOf(o)) == Applied(o, None)
  {
  }

  // ---------------------------------------------------------------------------
  // Name and address
  // ---------------------------------------------------------------------------

  /** The caption of a hub: names over 17 characters are cut to 15 plus "...",
      and the address follows directly, with no separator. */
  function DisplayText(text: string, address: string): (r: string)
    ensures |r| == (if |text| > 17 then 18 else |text|) + |address|
    ensures |text| <= 17 ==> r[..|text|] == text
    ensures |text| > 17 ==> r[..15] == text[..15] && r[15..18] == "..."
    ensures r[|r| - |address|..] == address
  {
    (if |text| > 17 then text[..15] + "..." else text) + address
  }

  /** The name field is accepted exactly when it has a non-whitespace character. */
  lemma NameAcceptedIff(newName: string)
    ensures (!IsSpace(newName) && newName != "") <==> Strip(newName) != ""
  {
    StripSpec(newName);
  }

  // ---------------------------------------------------------------------------
  // The hub object
  // ---------------------------------------------------------------------------

  class Hub {
    var text: string
    var address: string
    var collapsed: bool
    var pmOccupied: bool
    var gmOccupied: bool
    var foremanOccupied: bool
    var superOccupied: bool
    /** Ids of the roster's labels, in stacking order. */
    var electricianOccupied: seq<int>
    /** The scale of the last layout. */
    var scale: real
    /** The hub rectangle as the canvas holds it; the hub itself never moves it. */
    var area: Rect
    /** What the hub last wrote to the canvas for its boxes and buttons. */
    var layout: Layout
    /** Canvas id of the electrician box. */
    const electricianBoxId: int

    /** The fields the occupation record saves. */
    function View(): Occupancy
      reads this
    {
      Occupancy(pmOccupied, gmOccupied, foremanOccupied, superOccupied,
                electricianOccupied, collapsed, layout.boxes)
    }

    /** A hub at (x, y), 320 by 800, empty, expanded and laid out at scale 1. */
    constructor (text: string, x: real, y: real, address: string, electricianBoxId: int)
      ensures this.text == text && this.address == address
      ensures area == Rect(x, y, x + HubWidth, y + HubHeight)
      ensures !collapsed && !pmOccupied && !gmOccupied && !foremanOccupied && !superOccupied
      ensures electricianOccupied == []
      ensures scale == 1.0 && layout == ComputeLayout(area, 1.0, false)
      ensures this.electricianBoxId == electricianBoxId
    {
      this.text := text;
      this.address := address;
      this.electricianBoxId := electricianBoxId;
      area := Rect(x, y, x + HubWidth, y + HubHeight);
      collapsed := false;
      pmOccupied, gmOccupied, foremanOccupied, superOccupied := false, false, false, false;
      electricianOccupied := [];
      scale := 1.0;
      layout := ComputeLayout(Rect(x, y, x + HubWidth, y + HubHeight), 1.0, false);
    }

    /** `get_employee_id_by_role`: a linear search of the labels. */
    method EmployeeIdByRole(labels: seq<EmployeeLabel>, role: string) returns (id: Option<int>)
      ensures id == FirstSnapped(labels, role, this)
    {
      var k := 0;
      while k < |labels|
        invariant 0 <= k <= |labels|
        invariant FirstSnapped(labels[k..], role, this) == FirstSnapped(labels, role, this)
      {
        assert labels[k..][1..] == labels[k + 1..];
        if labels[k].role == role && labels[k].snappedTo == Some(this) {
          return Some(labels[k].id);
        }
        k := k + 1;
      }
      return None;
    }

    /** `update_employee_position` for one fixed box. */
    method PlaceFixedOccupant(box: Rect, labels: seq<EmployeeLabel>, role: string) returns (placed: seq<Placement>)
      ensures placed == FixedSlotPlacement(box, FirstSnapped(labels, role, this))
    {
      var id := EmployeeIdByRole(labels, role);
      placed := FixedSlotPlacement(box, id);
    }

    /** Placements of the occupants of the four fixed boxes whose flags are set,
        in the order PM, GM, Foreman, Super. */
    function FixedPlacements(labels: seq<EmployeeLabel>): seq<Placement>
      reads this`pmOccupied, this`gmOccupied, this`foremanOccupied, this`superOccupied, this`layout
    {
      (if pmOccupied then FixedSlotPlacement(layout.boxes.pm, FirstSnapped(labels, "PM", this)) else [])
      + (if gmOccupied then FixedSlotPlacement(layout.boxes.gm, FirstSnapped(labels, "GM", this)) else [])
      + (if foremanOccupied then FixedSlotPlacement(layout.boxes.foreman, FirstSnapped(labels, "Foreman", this)) else [])
      + (if superOccupied then FixedSlotPlacement(layout.boxes.superBox, FirstSnapped(labels, "Super", this)) else [])
    }

    /** `update_electrician_positions`: drops the roster entries the canvas no
        longer knows, then stacks the remaining text labels in the roster box
        (or from the origin when the box itself is gone). */
    method UpdateElectricianPositions(items: map<int, string>, appScale: real) returns (placed: seq<Placement>)
      modifies this`electricianOccupied
      ensures electricianOccupied == LiveOnly(old(electricianOccupied), items)
      ensures placed == RosterPlacements(electricianOccupied, items, RosterOrigin(items), appScale, |electricianOccupied|)
    {
      var box := RosterOrigin(items);
      var valid: seq<int> := [];
      var i := 0;
      while i < |electricianOccupied|
        invariant 0 <= i <= |electricianOccupied|
        invariant valid == LiveOnly(electricianOccupied[..i], items)
      {
        assert electricianOccupied[..i + 1][..i] == electricianOccupied[..i];
        if electricianOccupied[i] in items {
          valid := valid + [electricianOccupied[i]];
        }
        i := i + 1;
      }
      assert electricianOccupied[..i] == electricianOccupied;
      electricianOccupied := valid;
      placed := [];
      var index := 0;
      while index < |electricianOccupied|
        invariant 0 <= index <= |electricianOccupied|
        invariant placed == RosterPlacements(electricianOccupied, items, box, appScale, index)
      {
        var id := electricianOccupied[index];
        if id in items && items[id] == "text" {
          placed := placed + [Placement(id, RosterSlot(box, appScale, index))];
        }
        index := index + 1;
      }
    }

    /** The rectangle roster slots are measured from. */
    function RosterOrigin(items: map<int, string>): Rect
      reads this`layout
    {
      if electricianBoxId != 0 && electricianBoxId in items then layout.boxes.electrician else Origin
    }

    /** `update_all_positions`: the roster first, then the PM, GM, Foreman and
        Super occupants whose flags are set. */
    method UpdateAllPositions(items: map<int, string>, labels: seq<EmployeeLabel>, appScale: real)
      returns (placed: seq<Placement>)
      modifies this`electricianOccupied
      ensures electricianOccupied == LiveOnly(old(electricianOccupied), items)
      ensures placed == RosterPlacements(electricianOccupied, items, RosterOrigin(items), appScale, |electricianOccupied|)
                        + FixedPlacements(labels)
    {
      var roster := UpdateElectricianPositions(items, appScale);
      var pm, gm, foreman, superOcc := [], [], [], [];
      if pmOccupied {
        pm := PlaceFixedOccupant(layout.boxes.pm, labels, "PM");
      }
      if gmOccupied {
        gm := PlaceFixedOccupant(layout.boxes.gm, labels, "GM");
      }
      if foremanOccupied {
        foreman := PlaceFixedOccupant(layout.boxes.foreman, labels, "Foreman");
      }
      if superOccupied {
        superOcc := PlaceFixedOccupant(layout.boxes.superBox, labels, "Super");
      }
      placed := roster + (pm + gm + foreman + superOcc);
    }

    /** `update_positions`: re-derives the boxes and buttons from the hub
        rectangle, which it only reads, then re-places the occupants. */
    method UpdatePositions(newScale: real, items: map<int, string>, labels: seq<EmployeeLabel>, appScale: real)
      returns (placed: seq<Placement>)
      modifies this`scale, this`layout, this`electricianOccupied
      ensures scale == newScale
      ensures layout == ComputeLayout(area, newScale, collapsed)
      ensures electricianOccupied == LiveOnly(old(electricianOccupied), items)
      ensures placed == RosterPlacements(electricianOccupied, items, RosterOrigin(items), appScale, |electricianOccupied|)
                        + FixedPlacements(labels)
    {
      scale := newScale;
      layout := ComputeLayout(area, scale, collapsed);
      placed := UpdateAllPositions(items, labels, appScale);
    }

    /** `toggle_electrician_box`: flips the flag and nothing else. */
    method ToggleElectricianBox()
      modifies this`collapsed
      ensures collapsed == !old(collapsed)
    {
      collapsed := !collapsed;
    }

    /** `update_occupation`. "PM", "GM", "Foreman" and "Super" set their own flag
        (occupying Super also places its occupant); "Electrician" and
        "Fire Alarm" update the roster, which is then re-filtered and re-placed;
        any other box name changes nothing. */
    method UpdateOccupation(box: string, occupied: bool, employeeId: Option<int>,
                            items: map<int, string>, labels: seq<EmployeeLabel>, appScale: real)
      returns (placed: seq<Placement>)
      modifies this`pmOccupied, this`gmOccupied, this`foremanOccupied, this`superOccupied, this`electricianOccupied
      ensures pmOccupied == if box == "PM" then occupied else old(pmOccupied)
      ensures gmOccupied == if box == "GM" then occupied else old(gmOccupied)
      ensures foremanOccupied == if box == "Foreman" then occupied else old(foremanOccupied)
      ensures superOccupied == if box == "Super" then occupied else old(superOccupied)
      ensures electricianOccupied ==
                if box == "Electrician" || box == "Fire Alarm"
                then LiveOnly(Occupy(old(electricianOccupied), occupied, employeeId), items)
                else old(electricianOccupied)
      ensures box == "Electrician" || box == "Fire Alarm" ==>
                placed == RosterPlacements(electricianOccupied, items, RosterOrigin(items), appScale, |electricianOccupied|)
      ensures box == "Super" && occupied ==>
                placed == FixedSlotPlacement(layout.boxes.superBox, FirstSnapped(labels, "Super", this))
      ensures box != "Electrician" && box != "Fire Alarm" && !(box == "Super" && occupied) ==> placed == []
    {
      placed := [];
      if box == "PM" {
        pmOccupied := occupied;
      } else if box == "GM" {
        gmOccupied := occupied;
      } else if box == "Foreman" {
        foremanOccupied := occupied;
      } else if box == "Super" {
        superOccupied := occupied;
        if occupied {
          placed := PlaceFixedOccupant(layout.boxes.superBox, labels, "Super");
        }
      } else if box == "Electrician" || box == "Fire Alarm" {
        if !occupied {
          if employeeId.Some? && employeeId.value in electricianOccupied {
            electricianOccupied := RemoveFirst(electricianOccupied, employeeId.value);
          }
        } else {
          if Truthy(employeeId) && employeeId.value !in electricianOccupied {
            electricianOccupied := electricianOccupied + [employeeId.value];
          }
        }
        placed := UpdateElectricianPositions(items, appScale);
      }
    }

    /** `get_occupation_status`. */
    method GetOccupationStatus() returns (st: Status)
      ensures st == StatusOf(View())
    {
      st := StatusOf(View());
    }

    /** `set_occupation_status`: writes the record into the hub's fields and box
        coordinates, then re-places the occupants (which re-filters the roster).
        A missing role flag stops it part-way with `missing` naming the key. */
    method SetOccupationStatus(st: Status, items: map<int, string>, labels: seq<EmployeeLabel>, appScale: real)
      returns (missing: Option<string>, placed: seq<Placement>)
      modifies this`pmOccupied, this`gmOccupied, this`foremanOccupied, this`superOccupied,
               this`electricianOccupied, this`collapsed, this`layout
      ensures var a := ApplyStatus(old(View()), st);
              missing == a.missing
              && View() == if missing.Some? then a.occ else a.occ.(roster := LiveOnly(a.occ.roster, items))
      ensures layout == old(layout).(boxes := layout.boxes)
      ensures missing.Some? ==> placed == []
      ensures missing.None? ==>
                placed == RosterPlacements(electricianOccupied, items, RosterOrigin(items), appScale, |electricianOccupied|)
                          + FixedPlacements(labels)
    {
      placed := [];
      missing := RestoreFlags(st);
      if missing.Some? {
        return;
      }
      electricianOccupied := RosterOf(st);
      collapsed := CollapsedOf(st);
      layout := layout.(boxes := BoxesOf(st));
      placed := UpdateAllPositions(items, labels, appScale);
    }

    /** The first half of `set_occupation_status`: the four role flags, read in
        the order PM, GM, Foreman, Super, stopping at the first missing key. */
    method RestoreFlags(st: Status) returns (missing: Option<string>)
      modifies this`pmOccupied, this`gmOccupied, this`foremanOccupied, this`superOccupied
      ensures var a := ApplyStatus(old(View()), st);
              missing == a.missing
              && (missing.Some? ==> View() == a.occ)
              && (missing.None? ==> pmOccupied == a.occ.pm && gmOccupied == a.occ.gm
                                    && foremanOccupied == a.occ.foreman && superOccupied == a.occ.superOcc)
    {
      if st.pm.None? { return Some("PM"); }
      pmOccupied := st.pm.value;
      if st.gm.None? { return Some("GM"); }
      gmOccupied := st.gm.value;
      if st.foreman.None? { return Some("Foreman"); }
      foremanOccupied := st.foreman.value;
      if st.superOcc.None? { return Some("Super"); }
      superOccupied := st.superOcc.value;
      missing := None;
    }

    /** `save_new_name`: the name is replaced only by an entry that has a
        non-whitespace character, the address only by a non-empty entry; the
        caption shown afterwards is returned. */
    method SaveNewName(newName: string, newAddress: string) returns (caption: string)
      modifies this`text, this`address
      ensures text == if Strip(newName) != "" then newName else old(text)
      ensures address == if newAddress != "" then newAddress else old(address)
      ensures caption == DisplayText(text, address)
    {
      NameAcceptedIff(newName);
      if !IsSpace(newName) && newName != "" {
        text := newName;
      }
      if newAddress != "" {
        address := newAddress;
      }
      caption := DisplayText(text, address);
    }
  }

  /** Laying a hub out twice with the same scale gives the same boxes: the hub
      rectangle is read, never written, so nothing drifts. */
  method RelayoutIsStable(h: Hub, s: real, items: map<int, string>, labels: seq<EmployeeLabel>, appScale: real)
    modifies h
    ensures h.area == old(h.area) && h.collapsed == old(h.collapsed)
    ensures h.layout == ComputeLayout(old(h.area), s, old(h.collapsed))
  {
    var _ := h.UpdatePositions(s, items, labels, appScale);
    var first := h.layout;
    var _ := h.UpdatePositions(s, items, labels, appScale);
    assert h.layout == first;
  }
}
