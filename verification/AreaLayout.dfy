/** Where areas lie in the address space: the space calculation of tasvir_new and the bump allocation under a
    container (src/area.c:139-167, 201-206, 249-256, include/tasvir/defs.h:53-62). */
module AreaLayout {
  import opened Basics

  const ALIGNMENT: nat := 32768     // bytes of data per log vector
  const NR_LOGS: nat := 4
  const BYTES_PER_LOG_BYTE: nat := 512

  /** The sizes of a header and of a descriptor in bytes. */
  datatype Sizes = Sizes(header: nat, desc: nat)

  /** What is asked for. */
  datatype Request = Request(name: string, container: bool, bytes: nat, maxAreas: nat)

  /** An area, with the areas allocated under it. */
  datatype Area = Area(name: string, container: bool, h: nat, len: nat, logEnd: nat, logStart: nat, logSize: nat,
                       maxAreas: nat, children: seq<Area>)

  function AlignUp(x: nat, a: nat): (r: nat)
    requires a > 0
  {
    (x + a - 1) / a * a
  }

  function Align(x: nat): (r: nat)
    ensures r % ALIGNMENT == 0 && x <= r < x + ALIGNMENT
  {
    AlignUp(x, ALIGNMENT)
  }

  function Metadata(sz: Sizes, maxAreas: nat): nat { sz.header + maxAreas * sz.desc }

  /** The space calculation, for an area placed at h. */
  function Layout(sz: Sizes, q: Request, h: nat): Area {
    var meta := Metadata(sz, q.maxAreas);
    var logEnd := Align(meta + if q.container then 0 else q.bytes);
    var logStart := Align(meta + q.bytes);
    var logSize := AlignUp(logEnd / BYTES_PER_LOG_BYTE, 8);
    Area(q.name, q.container, h, logStart + Align(NR_LOGS * logSize), logEnd, logStart, logSize, q.maxAreas, [])
  }

  /** Start of diff log i. */
  function LogData(a: Area, i: nat): nat { a.h + a.logStart + i * a.logSize }

  function EndOf(a: Area): nat { a.h + a.len }

  /** An area by itself: everything starts and ends on an alignment boundary; loggable bytes come first, then, in a
      container, room for other areas, then the four logs, one byte for 512 loggable bytes each, with nothing in
      between. */
  predicate Shaped(a: Area) {
    && a.h % ALIGNMENT == 0 && a.len % ALIGNMENT == 0 && a.logEnd % ALIGNMENT == 0 && a.logStart % ALIGNMENT == 0
    && a.logEnd <= a.logStart && (!a.container ==> a.logEnd == a.logStart)
    && a.logSize * BYTES_PER_LOG_BYTE == a.logEnd && a.logStart + NR_LOGS * a.logSize <= a.len
  }

  lemma LayoutShaped(sz: Sizes, q: Request, h: nat)
    requires h % ALIGNMENT == 0
    ensures Shaped(Layout(sz, q, h))
    ensures Metadata(sz, q.maxAreas) <= Layout(sz, q, h).logEnd
  {
    var meta := Metadata(sz, q.maxAreas);
    hide Metadata;
    AlignMono(meta, meta + q.bytes);
    LogSize(Align(meta + if q.container then 0 else q.bytes));
    hide Align;
    var a := Layout(sz, q, h);
    AlignedSum(a.logStart, Align(NR_LOGS * a.logSize));
  }

  /** The room asked for is there: behind the metadata come the bytes of the request, loggable in a plain area and room
      for other areas in a container, then the logs; each part is the shortest whole number of alignment units. */
  lemma LayoutRoom(sz: Sizes, q: Request, h: nat)
    ensures var a, meta := Layout(sz, q, h), sz.header + q.maxAreas * sz.desc;
            && a.h == h && a.name == q.name && a.container == q.container && a.maxAreas == q.maxAreas
            && a.children == []
            && meta + q.bytes <= a.logStart < meta + q.bytes + ALIGNMENT
            && (if q.container then meta <= a.logEnd < meta + ALIGNMENT else a.logEnd == a.logStart)
            && a.logStart + NR_LOGS * a.logSize <= a.len < a.logStart + NR_LOGS * a.logSize + ALIGNMENT
  {
  }

  /** Together with the shape this leaves no choice. */
  lemma LayoutUnique(sz: Sizes, q: Request, h: nat, b: Area)
    requires h % ALIGNMENT == 0 && Shaped(b)
    requires b.h == h && b.name == q.name && b.container == q.container && b.maxAreas == q.maxAreas && b.children == []
    requires var meta := sz.header + q.maxAreas * sz.desc;
             && meta + q.bytes <= b.logStart < meta + q.bytes + ALIGNMENT
             && (q.container ==> meta <= b.logEnd < meta + ALIGNMENT)
             && b.len < b.logStart + NR_LOGS * b.logSize + ALIGNMENT
    ensures b == Layout(sz, q, h)
  {
    var a := Layout(sz, q, h);
    LayoutShaped(sz, q, h);
    LayoutRoom(sz, q, h);
    hide Layout, Metadata;
    AlignedOnce(a.logStart, b.logStart);
    AlignedOnce(a.logEnd, b.logEnd);
    assert a.logSize == b.logSize;
    AlignedOnce(a.len, b.len);
  }

  /** Two multiples of the alignment less than one unit apart are the same. */
  lemma AlignedOnce(x: nat, y: nat)
    requires x % ALIGNMENT == 0 && y % ALIGNMENT == 0 && x < y + ALIGNMENT && y < x + ALIGNMENT
    ensures x == y
  {
  }

  lemma AlignMono(x: nat, y: nat)
    requires x <= y
    ensures Align(x) <= Align(y)
  {
  }

  lemma LogSize(end: nat)
    requires end % ALIGNMENT == 0
    ensures AlignUp(end / BYTES_PER_LOG_BYTE, 8) * BYTES_PER_LOG_BYTE == end
  {
    assert end % 512 == 0 && end / 512 % 8 == 0;
  }

  lemma AlignedSum(x: nat, y: nat)
    requires x % ALIGNMENT == 0 && y % ALIGNMENT == 0
    ensures (x + y) % ALIGNMENT == 0
  {
  }

  // Areas under areas.

  /** A child lies in the room of its parent: behind the loggable bytes, below the logs. */
  predicate Within(a: Area, c: Area) {
    a.h + a.logEnd <= c.h && EndOf(c) < LogData(a, 0)
  }

  ghost predicate Tree(sz: Sizes, a: Area) {
    && Shaped(a) && |a.children| <= a.maxAreas && (a.children != [] ==> a.container)
    && (a.container ==> a.logEnd == Align(Metadata(sz, a.maxAreas)))
    && (forall i :: 0 <= i < |a.children| ==> Within(a, a.children[i]) && Tree(sz, a.children[i]))
    && (forall i, j :: 0 <= i < j < |a.children| ==>
          EndOf(a.children[i]) <= a.children[j].h && a.children[i].name != a.children[j].name)
  }

  /** tasvir_new_alloc_desc at the owner of the parent. */
  function NewUnder(sz: Sizes, a: Area, q: Request): Option<Area> {
    var n := |a.children|;
    if n >= a.maxAreas then None
    else if exists i :: 0 <= i < n && a.children[i].name == q.name then None
    else
      var h := Align(if n > 0 then EndOf(a.children[n - 1]) else a.h + Metadata(sz, a.maxAreas));
      var c := Layout(sz, q, h);
      if h + c.len >= LogData(a, 0) then None else Some(a.(children := a.children + [c]))
  }

  predicate SameExtent(a: Area, b: Area) {
    b == a.(children := b.children)
  }

  /** Where the areas allocated so far end, or the metadata of an area that has none. */
  function Taken(sz: Sizes, a: Area): nat {
    if a.children == [] then a.h + sz.header + a.maxAreas * sz.desc else EndOf(a.children[|a.children| - 1])
  }

  /** An allocation succeeds exactly if a descriptor is free, the name is new, and the area, placed at the next boundary
      h, ends below the parent's logs; the area added is then the last one, with the layout of the request. */
  lemma NewWhen(sz: Sizes, a: Area, q: Request, h: nat)
    requires h % ALIGNMENT == 0 && Taken(sz, a) <= h < Taken(sz, a) + ALIGNMENT
    ensures var r, c := NewUnder(sz, a, q), Layout(sz, q, h);
            && (r.Some? <==> |a.children| < a.maxAreas && (forall i :: 0 <= i < |a.children| ==>
                               a.children[i].name != q.name) && h + c.len < a.h + a.logStart)
            && (r.Some? ==> SameExtent(a, r.value) && r.value.children == a.children + [c])
  {
    hide Layout;
    AlignedOnce(h, Align(Taken(sz, a)));
  }

  /** A sequence of allocations under one parent, all of which have to succeed. */
  function NewAll(sz: Sizes, a: Area, qs: seq<Request>): Option<Area> {
    if qs == [] then Some(a)
    else
      var r := NewAll(sz, a, qs[..|qs| - 1]);
      if r.None? then None else NewUnder(sz, r.value, qs[|qs| - 1])
  }

  function TotalLen(sz: Sizes, qs: seq<Request>): nat {
    if qs == [] then 0 else TotalLen(sz, qs[..|qs| - 1]) + Layout(sz, qs[|qs| - 1], 0).len
  }

  predicate NamesDiffer(qs: seq<Request>) {
    forall i, j :: 0 <= i < j < |qs| ==> qs[i].name != qs[j].name
  }

  /** The areas lie one behind the other, without gaps, from the end of the metadata on. */
  predicate Packed(sz: Sizes, a: Area, b: Area, qs: seq<Request>) {
    && SameExtent(a, b) && |b.children| == |qs|
    && forall i :: 0 <= i < |qs| ==> b.children[i] == Layout(sz, qs[i], a.h + a.logEnd + TotalLen(sz, qs[..i]))
  }

  /** What a container made for a request holds: exactly those requests for which there are descriptors, whose names
      differ, and whose lengths together stay below its room. They are then packed. */
  lemma {:induction false} ContainerHolds(sz: Sizes, p: Request, h: nat, qs: seq<Request>)
    requires h % ALIGNMENT == 0 && p.container
    ensures var a, r := Layout(sz, p, h), NewAll(sz, Layout(sz, p, h), qs);
            && (r.Some? <==> |qs| <= p.maxAreas && NamesDiffer(qs) &&
                             (qs != [] ==> a.logEnd + TotalLen(sz, qs) < a.logStart))
            && (r.Some? ==> Packed(sz, a, r.value, qs))
    decreases |qs|
  {
    hide Layout, Metadata, Shaped, NewUnder, TotalLen, Packed;
    var a := Layout(sz, p, h);
    LayoutRoom(sz, p, h);
    if qs == [] {
      PackedNone(sz, a);
    } else {
      var n := |qs| - 1;
      var init := qs[..n];
      ContainerHolds(sz, p, h, init);
      NamesSnoc(qs);
      LensGrow(sz, qs);
      if NewAll(sz, a, init).Some? {
        PackedNext(sz, p, h, NewAll(sz, a, init).value, qs);
      }
    }
  }

  lemma LensGrow(sz: Sizes, qs: seq<Request>)
    requires qs != []
    ensures TotalLen(sz, qs) == TotalLen(sz, qs[..|qs| - 1]) + Layout(sz, qs[|qs| - 1], 0).len
  {
  }

  lemma PackedNone(sz: Sizes, a: Area)
    requires a.children == []
    ensures Packed(sz, a, a, [])
  {
  }

  /** One more area behind those packed. */
  lemma PackedNext(sz: Sizes, p: Request, h: nat, b: Area, qs: seq<Request>)
    requires h % ALIGNMENT == 0 && p.container && qs != [] && Packed(sz, Layout(sz, p, h), b, qs[..|qs| - 1])
    ensures var a, r, init, q := Layout(sz, p, h), NewUnder(sz, b, qs[|qs| - 1]), qs[..|qs| - 1], qs[|qs| - 1];
            && (r.Some? <==> |qs| <= p.maxAreas && (forall i :: 0 <= i < |init| ==> init[i].name != q.name) &&
                             a.logEnd + TotalLen(sz, init) + Layout(sz, q, 0).len < a.logStart)
            && (r.Some? ==> Packed(sz, a, r.value, qs))
  {
    hide Layout, Metadata, NewUnder, TotalLen;
    var a, n := Layout(sz, p, h), |qs| - 1;
    var init, q := qs[..n], qs[n];
    var at := h + a.logEnd + TotalLen(sz, init);
    LayoutRoom(sz, p, h);
    TakenAt(sz, p, h, b, init);
    NewWhen(sz, b, q, at);
    LenAnywhere(sz, q, at);
    forall i | 0 <= i < n ensures b.children[i].name == init[i].name {
      LayoutNames(sz, init[i], a.h + a.logEnd + TotalLen(sz, init[..i]));
    }
    if NewUnder(sz, b, q).Some? {
      PackedSnoc(sz, a, b, NewUnder(sz, b, q).value, qs);
    }
  }

  lemma PackedSnoc(sz: Sizes, a: Area, b: Area, c: Area, qs: seq<Request>)
    requires qs != [] && Packed(sz, a, b, qs[..|qs| - 1]) && SameExtent(b, c)
    requires var n := |qs| - 1;
             c.children == b.children + [Layout(sz, qs[n], a.h + a.logEnd + TotalLen(sz, qs[..n]))]
    ensures Packed(sz, a, c, qs)
  {
    hide Layout, TotalLen;
    var n := |qs| - 1;
    var init := qs[..n];
    assert forall i :: 0 <= i < n ==> init[i] == qs[i] && init[..i] == qs[..i];
  }

  lemma TakenAt(sz: Sizes, p: Request, h: nat, b: Area, qs: seq<Request>)
    requires h % ALIGNMENT == 0 && p.container && Packed(sz, Layout(sz, p, h), b, qs)
    ensures var at := h + Layout(sz, p, h).logEnd + TotalLen(sz, qs);
            at % ALIGNMENT == 0 && Taken(sz, b) <= at < Taken(sz, b) + ALIGNMENT
  {
    hide Layout, Metadata;
    var a := Layout(sz, p, h);
    LayoutRoom(sz, p, h);
    EndAligned(sz, p, h, qs);
    if qs != [] {
      var n := |qs| - 1;
      LenAnywhere(sz, qs[n], h + a.logEnd + TotalLen(sz, qs[..n]));
    }
  }

  lemma NamesSnoc(qs: seq<Request>)
    requires qs != []
    ensures var n := |qs| - 1;
            NamesDiffer(qs) <==> NamesDiffer(qs[..n]) && forall i :: 0 <= i < n ==> qs[i].name != qs[n].name
  {
    var init := qs[..|qs| - 1];
    assert forall i :: 0 <= i < |init| ==> init[i] == qs[i];
  }

  lemma LenAnywhere(sz: Sizes, q: Request, h: nat)
    ensures Layout(sz, q, h).len == Layout(sz, q, 0).len && Layout(sz, q, h).len % ALIGNMENT == 0
    ensures EndOf(Layout(sz, q, h)) == h + Layout(sz, q, 0).len
  {
    var a := Layout(sz, q, h);
    AlignedSum(a.logStart, Align(NR_LOGS * a.logSize));
  }

  lemma {:induction false} LensAligned(sz: Sizes, qs: seq<Request>)
    ensures TotalLen(sz, qs) % ALIGNMENT == 0
    decreases |qs|
  {
    hide Layout;
    if qs != [] {
      LensAligned(sz, qs[..|qs| - 1]);
      LenAnywhere(sz, qs[|qs| - 1], 0);
      AlignedSum(TotalLen(sz, qs[..|qs| - 1]), Layout(sz, qs[|qs| - 1], 0).len);
    }
  }

  lemma EndAligned(sz: Sizes, p: Request, h: nat, qs: seq<Request>)
    requires h % ALIGNMENT == 0
    ensures (h + Layout(sz, p, h).logEnd + TotalLen(sz, qs)) % ALIGNMENT == 0
  {
    hide Layout, TotalLen, AlignUp;
    LayoutShaped(sz, p, h);
    LensAligned(sz, qs);
    AlignedSum(h, Layout(sz, p, h).logEnd);
    AlignedSum(h + Layout(sz, p, h).logEnd, TotalLen(sz, qs));
  }

  lemma AlignAt(base: nat, x: nat)
    requires base % ALIGNMENT == 0
    ensures Align(base + x) == base + Align(x)
  {
  }

  lemma {:induction false} LayoutTree(sz: Sizes, q: Request, h: nat)
    requires h % ALIGNMENT == 0
    ensures Tree(sz, Layout(sz, q, h))
  {
    LayoutShaped(sz, q, h);
  }

  lemma LayoutNames(sz: Sizes, q: Request, h: nat)
    ensures Layout(sz, q, h).name == q.name && Layout(sz, q, h).h == h
  {
  }

  lemma {:induction false} NewKeeps(sz: Sizes, a: Area, q: Request)
    requires Tree(sz, a) && a.container && NewUnder(sz, a, q).Some?
    ensures Tree(sz, NewUnder(sz, a, q).value)
  {
    hide Align, Metadata, Layout;
    var n := |a.children|;
    var after := if n > 0 then EndOf(a.children[n - 1]) else a.h + Metadata(sz, a.maxAreas);
    var h := Align(after);
    AlignAt(a.h, Metadata(sz, a.maxAreas));
    LayoutTree(sz, q, h);
    LayoutNames(sz, q, h);
    var c := Layout(sz, q, h);
    var b := a.(children := a.children + [c]);
    assert Within(a, c);
    forall i | 0 <= i < |b.children| ensures Within(b, b.children[i]) && Tree(sz, b.children[i]) {
      assert b.children[i] == if i < n then a.children[i] else c;
    }
    forall i, j | 0 <= i < j < |b.children|
      ensures EndOf(b.children[i]) <= b.children[j].h && b.children[i].name != b.children[j].name
    {
      if j == n && i < n - 1 {
        assert EndOf(a.children[i]) <= a.children[n - 1].h;
      }
    }
  }

  /** The allocator does not look at the type of the parent. A new area lies clear of the parent's loggable bytes
      exactly if the parent is a container. */
  lemma ClearOfParent(sz: Sizes, a: Area, q: Request)
    requires Tree(sz, a) && NewUnder(sz, a, q).Some?
    ensures var cs := NewUnder(sz, a, q).value.children; Within(a, cs[|cs| - 1]) <==> a.container
  {
    if a.container {
      NewKeeps(sz, a, q);
    }
  }

  /** A plain area with a free descriptor and enough data for the new area: the allocation succeeds and puts the new
      area into the data, whatever the sizes of headers and descriptors. */
  lemma PlainParentOverlaps(sz: Sizes, q: Request, r: Request, h: nat)
    requires h % ALIGNMENT == 0 && !q.container && q.maxAreas > 0
    requires Align(Metadata(sz, q.maxAreas)) + Layout(sz, r, 0).len < Align(Metadata(sz, q.maxAreas) + q.bytes)
    ensures var a := Layout(sz, q, h);
            var b := NewUnder(sz, a, r);
            && b.Some? && |b.value.children| == 1
            && a.h <= b.value.children[0].h && EndOf(b.value.children[0]) < a.h + a.logEnd
  {
    hide Align, Metadata, AlignUp;
    var a := Layout(sz, q, h);
    AlignAt(h, Metadata(sz, q.maxAreas));
    assert a.children == [];
    assert LogData(a, 0) == h + Align(Metadata(sz, q.maxAreas) + q.bytes);
  }

  predicate HasPath(a: Area, path: seq<nat>) {
    path == [] || (path[0] < |a.children| && HasPath(a.children[path[0]], path[1..]))
  }

  function At(a: Area, path: seq<nat>): Area
    requires HasPath(a, path)
  {
    if path == [] then a else At(a.children[path[0]], path[1..])
  }

  /** An allocation under the container at a path. */
  function NewAt(sz: Sizes, a: Area, path: seq<nat>, q: Request): Option<Area>
    decreases a
  {
    if path == [] then if a.container then NewUnder(sz, a, q) else None
    else if path[0] >= |a.children| then None
    else
      var r := NewAt(sz, a.children[path[0]], path[1..], q);
      if r.None? then None else Some(a.(children := a.children[path[0] := r.value]))
  }

  /** It succeeds exactly if there is a container at the path and the allocation under it does; that container is then
      replaced by the one with the new area, and nothing else in the tree changes. */
  lemma {:induction false} NewAtIs(sz: Sizes, a: Area, path: seq<nat>, q: Request)
    ensures var r := NewAt(sz, a, path, q);
            && (r.Some? <==> HasPath(a, path) && At(a, path).container && NewUnder(sz, At(a, path), q).Some?)
            && (r.Some? ==> HasPath(r.value, path) && At(r.value, path) == NewUnder(sz, At(a, path), q).value)
    decreases a
  {
    hide NewUnder;
    if path != [] && path[0] < |a.children| {
      NewAtIs(sz, a.children[path[0]], path[1..], q);
    }
  }

  lemma {:induction false} NewAtElsewhere(sz: Sizes, a: Area, path: seq<nat>, q: Request, p: seq<nat>)
    requires NewAt(sz, a, path, q).Some? && HasPath(a, p) && !(p <= path) && !(path <= p)
    ensures var r := NewAt(sz, a, path, q).value; HasPath(r, p) && At(r, p) == At(a, p)
    decreases a
  {
    hide NewUnder;
    if p[0] == path[0] {
      assert p == [p[0]] + p[1..] && path == [path[0]] + path[1..];
      NewAtElsewhere(sz, a.children[path[0]], path[1..], q, p[1..]);
    }
  }

  lemma {:induction false} NewAtKeeps(sz: Sizes, a: Area, path: seq<nat>, q: Request)
    requires Tree(sz, a) && NewAt(sz, a, path, q).Some?
    ensures Tree(sz, NewAt(sz, a, path, q).value) && SameExtent(a, NewAt(sz, a, path, q).value)
    decreases a
  {
    if path == [] {
      NewKeeps(sz, a, q);
    } else {
      var k := path[0];
      var c := a.children[k];
      NewAtKeeps(sz, c, path[1..], q);
      var d := NewAt(sz, c, path[1..], q).value;
      ReplaceKeeps(sz, a, k, d);
    }
  }

  lemma {:induction false} ReplaceKeeps(sz: Sizes, a: Area, k: nat, d: Area)
    requires Tree(sz, a) && k < |a.children| && Tree(sz, d) && SameExtent(a.children[k], d)
    ensures Tree(sz, a.(children := a.children[k := d]))
  {
    hide Align, Metadata;
    var b := a.(children := a.children[k := d]);
    forall i | 0 <= i < |b.children| ensures Within(b, b.children[i]) && Tree(sz, b.children[i]) {
      assert Within(a, a.children[i]);
    }
    forall i, j | 0 <= i < j < |b.children|
      ensures EndOf(b.children[i]) <= b.children[j].h && b.children[i].name != b.children[j].name
    {
      assert EndOf(a.children[i]) <= a.children[j].h && a.children[i].name != a.children[j].name;
    }
  }

  /** A sequence of allocations; one that fails leaves everything as it was. */
  function Run(sz: Sizes, a: Area, qs: seq<(seq<nat>, Request)>): Area {
    if qs == [] then a
    else
      var before := Run(sz, a, qs[..|qs| - 1]);
      var r := NewAt(sz, before, qs[|qs| - 1].0, qs[|qs| - 1].1);
      if r.None? then before else r.value
  }

  lemma {:induction false} RunKeeps(sz: Sizes, a: Area, qs: seq<(seq<nat>, Request)>)
    requires Tree(sz, a)
    ensures Tree(sz, Run(sz, a, qs))
    decreases |qs|
  {
    hide Tree, NewAt;
    if qs != [] {
      RunKeeps(sz, a, qs[..|qs| - 1]);
      var before, q := Run(sz, a, qs[..|qs| - 1]), qs[|qs| - 1];
      if NewAt(sz, before, q.0, q.1).Some? {
        NewAtKeeps(sz, before, q.0, q.1);
      }
    }
  }

  // What a tree guarantees.

  /** Everything under an area lies inside it; anything strictly under it lies in its room. */
  lemma {:induction false} Inside(sz: Sizes, a: Area, path: seq<nat>)
    requires Tree(sz, a) && HasPath(a, path)
    ensures var b := At(a, path); Tree(sz, b) && a.h <= b.h && EndOf(b) <= EndOf(a) && (path != [] ==> Within(a, b))
    decreases path
  {
    if path != [] {
      Inside(sz, a.children[path[0]], path[1..]);
    }
  }

  predicate Apart(a: Area, b: Area) {
    a.h + a.logEnd <= b.h || b.h + b.logEnd <= a.h
  }

  /** The loggable bytes of different areas never overlap, wherever they are in the tree. */
  lemma {:induction false} LoggableApart(sz: Sizes, a: Area, p: seq<nat>, q: seq<nat>)
    requires Tree(sz, a) && HasPath(a, p) && HasPath(a, q) && p != q
    ensures Apart(At(a, p), At(a, q))
    decreases |p|
  {
    Inside(sz, a, p);
    Inside(sz, a, q);
    if p != [] && q != [] {
      var c, d := a.children[p[0]], a.children[q[0]];
      Inside(sz, c, p[1..]);
      Inside(sz, d, q[1..]);
      if p[0] == q[0] {
        assert p == [p[0]] + p[1..] && q == [q[0]] + q[1..];
        LoggableApart(sz, c, p[1..], q[1..]);
      } else {
        assert EndOf(c) <= d.h || EndOf(d) <= c.h;
      }
    }
  }

  /** The log vector of an address. */
  function VectorOf(address: nat): nat { address / ALIGNMENT }

  /** Log i of an area lies behind its loggable bytes, inside the area, and ends where the next one starts. */
  lemma LogsContiguous(a: Area, i: nat)
    requires Shaped(a) && i < NR_LOGS
    ensures a.h + a.logEnd <= LogData(a, i) && LogData(a, i + 1) == LogData(a, i) + a.logSize <= EndOf(a)
  {
    assert i * a.logSize + a.logSize == (i + 1) * a.logSize;
    assert i == 0 || i == 1 || i == 2 || i == 3;
  }

  /** After any run of allocations every area is aligned, and the areas under it are aligned, disjoint and below
      its logs. */
  lemma SiblingsApart(sz: Sizes, root: Area, qs: seq<(seq<nat>, Request)>, p: seq<nat>, i: nat, j: nat)
    requires Tree(sz, root) && HasPath(Run(sz, root, qs), p)
    requires i < j < |At(Run(sz, root, qs), p).children|
    ensures var a := At(Run(sz, root, qs), p);
            && Shaped(a) && Shaped(a.children[i]) && Within(a, a.children[i]) && Within(a, a.children[j])
            && EndOf(a.children[i]) <= a.children[j].h
  {
    var t := Run(sz, root, qs);
    RunKeeps(sz, root, qs);
    hide Run;
    Inside(sz, t, p);
  }

  /** After any run of allocations the loggable bytes of different areas use different log vectors. */
  lemma VectorsDiffer(sz: Sizes, root: Area, qs: seq<(seq<nat>, Request)>, p: seq<nat>, q: seq<nat>, x: nat, y: nat)
    requires Tree(sz, root) && p != q
    requires var t := Run(sz, root, qs); HasPath(t, p) && HasPath(t, q)
    requires var a, b := At(Run(sz, root, qs), p), At(Run(sz, root, qs), q);
             a.h <= x < a.h + a.logEnd && b.h <= y < b.h + b.logEnd
    ensures VectorOf(x) != VectorOf(y)
  {
    hide Run, At, HasPath, Tree, VectorOf;
    var t := Run(sz, root, qs);
    RunKeeps(sz, root, qs);
    Inside(sz, t, p);
    Inside(sz, t, q);
    var a, b := At(t, p), At(t, q);
    TreeShaped(sz, a);
    TreeShaped(sz, b);
    LoggableApart(sz, t, p, q);
    AlignedSum(a.h, a.logEnd);
    AlignedSum(b.h, b.logEnd);
    if a.h + a.logEnd <= b.h {
      VectorsApart(a.h + a.logEnd, x, y);
    } else {
      VectorsApart(b.h + b.logEnd, y, x);
    }
  }

  lemma TreeShaped(sz: Sizes, a: Area)
    requires Tree(sz, a)
    ensures Shaped(a)
  {
  }

  lemma VectorsApart(bound: nat, x: nat, y: nat)
    requires bound % ALIGNMENT == 0 && x < bound <= y
    ensures VectorOf(x) < VectorOf(y)
  {
  }
}
