/** The client's write-back cache of graphics contexts (libX11 CrGC.c, ChGC.c, CopyGC.c, SetCRects.c,
    SetDashes.c) beside a model of the server that receives its requests. */
module GraphicsContext {

  // The components in the order of their mask bits.
  const GCFunction := 0
  const GCPlaneMask := 1
  const GCForeground := 2
  const GCBackground := 3
  const GCLineWidth := 4
  const GCLineStyle := 5
  const GCCapStyle := 6
  const GCJoinStyle := 7
  const GCFillStyle := 8
  const GCFillRule := 9
  const GCTile := 10
  const GCStipple := 11
  const GCTileStipXOrigin := 12
  const GCTileStipYOrigin := 13
  const GCFont := 14
  const GCSubwindowMode := 15
  const GCGraphicsExposures := 16
  const GCClipXOrigin := 17
  const GCClipYOrigin := 18
  const GCClipMask := 19
  const GCDashOffset := 20
  const GCDashList := 21
  const GCArcMode := 22
  const BITS := 23

  const UNKNOWN := 0xFFFF_FFFF    // ~0: no such resource
  const ALL_PLANES := 0xFFFF_FFFF

  type Values = v: seq<int> | |v| == BITS witness seq(BITS, _ => 0)

  /** A value mask: the set of its bits. */
  type Mask = set<nat>

  const INITIAL_GC: Values :=
    [3, ALL_PLANES, 0, 1, 0, 0, 1, 0, 0, 0, UNKNOWN, UNKNOWN, 0, 0, UNKNOWN, 0, 1, 0, 0, 0, 0, 4, 1]

  /** valuemask &= (1L << (GCLastBit + 1)) - 1 */
  function Known(mask: Mask): Mask {
    set b | b in mask && b < BITS
  }

  // ---------- the server ----------

  /** What the server keeps in a component: a word, a clip list or a dash list. */
  datatype Cell = Word(n: int) | ClipList(rects: seq<(int, int, nat, nat)>, ordering: int) | DashList(dashes: seq<int>)

  type ServerGC = v: seq<Cell> | |v| == BITS witness seq(BITS, _ => Word(0))

  /** A component set by a word of a value list; a dash value n stands for the list [n, n]. */
  function Wire(b: nat, n: int): Cell {
    if b == GCDashList then DashList([n, n]) else Word(n)
  }

  /** The resources a server gives a new context, which the client does not know. */
  datatype Defaults = Defaults(tile: int, stipple: int, font: int)

  /** The default components of a new context, in mask bit order (libX11 manual, chapter 7). */
  function Fresh(d: Defaults): ServerGC {
    [Word(3), Word(ALL_PLANES), Word(0), Word(1), Word(0), Word(0), Word(1), Word(0), Word(0), Word(0),
     Word(d.tile), Word(d.stipple), Word(0), Word(0), Word(d.font), Word(0), Word(1), Word(0), Word(0),
     Word(0), Word(0), DashList([4, 4]), Word(1)]
  }

  /** How many bits of the mask come before bit b: the place of its value in a value list. */
  function Rank(mask: Mask, b: nat): nat {
    |set x | x in mask && x < b|
  }

  /** Sets the components of a value list, read by ascending mask bit. */
  function Decoded(g: ServerGC, mask: Mask, list: seq<int>): ServerGC
    requires ListFits(mask, list)
  {
    seq(BITS, b requires 0 <= b < BITS => if b in mask then RankBound(mask, b); Wire(b, list[Rank(mask, b)]) else g[b])
  }

  ghost predicate ListFits(mask: Mask, list: seq<int>) {
    |list| == |mask| && forall b :: b in mask ==> b < BITS
  }

  datatype Request =
    | CreateGC(gid: nat, mask: Mask, list: seq<int>)
    | ChangeGC(gid: nat, mask: Mask, list: seq<int>)
    | CopyGC(src: nat, dst: nat, mask: Mask)
    | SetClipRectangles(gid: nat, x: int, y: int, rects: seq<(int, int, nat, nat)>, ordering: int)
    | SetDashes(gid: nat, offset: int, dashes: seq<int>)

  function CopiedCells(src: ServerGC, dst: ServerGC, mask: Mask): ServerGC {
    seq(BITS, b requires 0 <= b < BITS => if b in mask then src[b] else dst[b])
  }

  type ServerState = map<nat, ServerGC>

  ghost predicate Acceptable(s: ServerState, r: Request) {
    match r
    case CreateGC(gid, mask, list) => gid !in s && ListFits(mask, list)
    case ChangeGC(gid, mask, list) => gid in s && ListFits(mask, list)
    case CopyGC(src, dst, mask) => src in s && dst in s
    case SetClipRectangles(gid, _, _, _, _) => gid in s
    case SetDashes(gid, _, _) => gid in s
  }

  ghost function Served(s: ServerState, r: Request, d: Defaults): ServerState
    requires Acceptable(s, r)
  {
    match r
    case CreateGC(gid, mask, list) => s[gid := Decoded(Fresh(d), mask, list)]
    case ChangeGC(gid, mask, list) => s[gid := Decoded(s[gid], mask, list)]
    case CopyGC(src, dst, mask) =>
      s[dst := CopiedCells(s[src], s[dst], mask)]
    case SetClipRectangles(gid, x, y, rects, ordering) =>
      s[gid := s[gid][GCClipXOrigin := Word(x)][GCClipYOrigin := Word(y)][GCClipMask := ClipList(rects, ordering)]]
    case SetDashes(gid, offset, dashes) =>
      s[gid := s[gid][GCDashOffset := Word(offset)][GCDashList := DashList(dashes)]]
  }

  /** The server state after a stream of requests, if the server accepted them all. */
  ghost predicate AllAcceptable(rs: seq<Request>, d: Defaults)
    decreases |rs|, 0
  {
    rs == [] || (AllAcceptable(rs[..|rs| - 1], d) && Acceptable(Server(rs[..|rs| - 1], d), rs[|rs| - 1]))
  }

  ghost function Server(rs: seq<Request>, d: Defaults): ServerState
    requires AllAcceptable(rs, d)
    decreases |rs|, 1
  {
    if rs == [] then map[] else Served(Server(rs[..|rs| - 1], d), rs[|rs| - 1], d)
  }

  // ---------- value lists ----------

  lemma RankBound(mask: Mask, b: nat)
    requires b in mask
    ensures Rank(mask, b) < |mask|
  {
    var below := set x | x in mask && x < b;
    SubsetSize(below + {b}, mask);
  }

  lemma {:induction false} SubsetSize(a: set<nat>, b: set<nat>)
    requires a <= b
    ensures |a| <= |b|
  {
    if a != {} {
      var x :| x in a;
      SubsetSize(a - {x}, b - {x});
    }
  }

  lemma RankNext(mask: Mask, b: nat)
    ensures Rank(mask, b + 1) == Rank(mask, b) + if b in mask then 1 else 0
  {
    var below := set x | x in mask && x < b;
    var upTo := set x | x in mask && x < b + 1;
    assert upTo == if b in mask then below + {b} else below;
  }

  lemma RankAll(mask: Mask)
    requires forall b :: b in mask ==> b < BITS
    ensures Rank(mask, BITS) == |mask|
  {
    assert (set x | x in mask && x < BITS) == mask;
  }

  /** list holds the values of the mask's bits below b, each at its rank. */
  ghost predicate Encodes(mask: Mask, values: Values, list: seq<int>, b: nat) {
    && |list| == Rank(mask, b)
    && forall x :: x in mask && x < b && x < BITS ==> Rank(mask, x) < |list| && list[Rank(mask, x)] == values[x]
  }

  /** Decoding what was encoded sets exactly the mask's components, to the given values. */
  lemma DecodeEncode(g: ServerGC, mask: Mask, values: Values, list: seq<int>, b: nat)
    requires (forall x :: x in mask ==> x < BITS) && Encodes(mask, values, list, BITS) && b < BITS
    ensures ListFits(mask, list)
    ensures Decoded(g, mask, list)[b] == if b in mask then Wire(b, values[b]) else g[b]
  {
    RankAll(mask);
  }

  // ---------- the client ----------

  /** The cache of one context: shadow values, bits not yet sent, and whether the shadow of the
      clip mask (rects) or of the dash list (dashes) is out of date. */
  datatype Client = Client(values: Values, dirty: Mask, rects: bool, dashes: bool)

  predicate AlwaysWritten(b: nat) { b == GCTile || b == GCStipple || b == GCClipMask }

  /** Whether setting component b to v must be sent. */
  predicate NeedsSending(c: Client, b: nat, v: int)
    requires b < BITS
  {
    c.values[b] != v || AlwaysWritten(b) || (b == GCDashList && c.dashes)
  }

  function Updated(c: Client, mask: Mask, attr: Values): Client {
    Client(
      seq(BITS, b requires 0 <= b < BITS => if b in mask then attr[b] else c.values[b]),
      c.dirty + (set b | b in mask && b < BITS && NeedsSending(c, b, attr[b])),
      c.rects && GCClipMask !in mask,
      c.dashes && GCDashList !in mask)
  }

  /** The server's value of a component may differ from the shadow without being waited for. */
  predicate ShadowUnknown(c: Client, b: nat)
    requires b < BITS
  {
    || (b == GCClipMask && c.rects)
    || (b == GCDashList && c.dashes)
    || ((b == GCTile || b == GCStipple || b == GCFont) && c.values[b] == UNKNOWN)
  }

  /** The cache invariant: what is neither dirty nor marked unknown is what the server has. */
  ghost predicate Coherent(c: Client, s: ServerGC) {
    && (forall b :: b in c.dirty ==> b < BITS)
    && (forall b :: 0 <= b < BITS && b !in c.dirty && !ShadowUnknown(c, b) ==> s[b] == Wire(b, c.values[b]))
    && (c.rects ==> GCClipMask !in c.dirty && s[GCClipMask].ClipList?)
    && (c.dashes ==> GCDashList !in c.dirty && s[GCDashList].DashList?)
  }

  lemma UpdatedCoherent(c: Client, mask: Mask, attr: Values, s: ServerGC)
    requires Coherent(c, s)
    ensures Coherent(Updated(c, Known(mask), attr), s)
  {
    var c' := Updated(c, Known(mask), attr);
    forall b | 0 <= b < BITS && b !in c'.dirty && !ShadowUnknown(c', b)
      ensures s[b] == Wire(b, c'.values[b])
    {
      assert b !in c.dirty;
      if b in mask { assert b in Known(mask); assert !NeedsSending(c, b, attr[b]); }
    }
  }

  /** The server's components once the dirty ones of the client have been sent. */
  function Sent(c: Client, s: ServerGC): ServerGC {
    seq(BITS, b requires 0 <= b < BITS => if b in c.dirty then Wire(b, c.values[b]) else s[b])
  }

  lemma SentCoherent(c: Client, s: ServerGC)
    requires Coherent(c, s)
    ensures Coherent(c.(dirty := {}), Sent(c, s)) && (c.dirty == {} ==> Sent(c, s) == s)
  {
  }

  /** Sending the dirty components leaves nothing dirty and the server up to date. */
  lemma FlushedCoherent(c: Client, s: ServerGC, list: seq<int>)
    requires Coherent(c, s) && Encodes(c.dirty, c.values, list, BITS)
    ensures ListFits(c.dirty, list) && Decoded(s, c.dirty, list) == Sent(c, s) && Coherent(c.(dirty := {}), Sent(c, s))
  {
    RankAll(c.dirty);
    forall b | 0 <= b < BITS
      ensures Decoded(s, c.dirty, list)[b] == Sent(c, s)[b]
    {
      DecodeEncode(s, c.dirty, c.values, list, b);
    }
    SentCoherent(c, s);
  }

  /** CopyGC: both sides copy the same components. */
  function Copied(src: Client, dst: Client, mask: Mask): Client {
    Client(
      seq(BITS, b requires 0 <= b < BITS => if b in mask then src.values[b] else dst.values[b]),
      dst.dirty - mask,
      if GCClipMask in mask then src.rects else dst.rects,
      if GCDashList in mask then src.dashes else dst.dashes)
  }

  lemma CopiedCoherent(src: Client, dst: Client, mask: Mask, ss: ServerGC, ds: ServerGC)
    requires Coherent(src, ss) && Coherent(dst, ds) && src.dirty * mask == {}
    ensures Coherent(Copied(src, dst, mask), CopiedCells(ss, ds, mask))
  {
    assert forall b :: b in mask ==> b !in src.dirty by {
      forall b | b in mask ensures b !in src.dirty { assert b in src.dirty ==> b in src.dirty * mask; }
    }
  }

  /** A new context: the known initial values are the server's defaults. */
  lemma FreshCoherent(d: Defaults)
    ensures Coherent(Client(INITIAL_GC, {}, false, false), Fresh(d))
  {
  }

  /** _XSetClipRectangles: the shadow of the clip mask becomes unknown. */
  function Clipped(c: Client, x: int, y: int): Client {
    c.(values := c.values[GCClipXOrigin := x][GCClipYOrigin := y],
       dirty := c.dirty - {GCClipMask, GCClipXOrigin, GCClipYOrigin},
       rects := true)
  }

  lemma ClippedCoherent(c: Client, s: ServerGC, x: int, y: int, rects: seq<(int, int, nat, nat)>, ordering: int)
    requires Coherent(c, s)
    ensures Coherent(Clipped(c, x, y), s[GCClipXOrigin := Word(x)][GCClipYOrigin := Word(y)][GCClipMask := ClipList(rects, ordering)])
    ensures ClippedTo(c, s, Clipped(c, x, y), s[GCClipXOrigin := Word(x)][GCClipYOrigin := Word(y)][GCClipMask := ClipList(rects, ordering)],
                      x, y, ClipList(rects, ordering))
  {
  }

  /** XSetDashes: the shadow of the dash list becomes unknown. */
  function Dashed(c: Client, offset: int): Client {
    c.(values := c.values[GCDashOffset := offset], dirty := c.dirty - {GCDashList, GCDashOffset}, dashes := true)
  }

  lemma DashedCoherent(c: Client, s: ServerGC, offset: int, dashes: seq<int>)
    requires Coherent(c, s)
    ensures Coherent(Dashed(c, offset), s[GCDashOffset := Word(offset)][GCDashList := DashList(dashes)])
    ensures DashedTo(c, s, Dashed(c, offset), s[GCDashOffset := Word(offset)][GCDashList := DashList(dashes)], offset, DashList(dashes))
  {
  }

  // ---------- what the calls do, component by component ----------

  /** Component b has to be sent once the components of mask have been set to attr: it had to be
      already, or it is asked for and either differs from its shadow, or may hide a change that the
      shadow does not show. */
  ghost predicate Waits(c: Client, mask: Mask, attr: Values, b: nat)
    requires b < BITS
  {
    || b in c.dirty
    || (b in mask && (c.values[b] != attr[b] || b == GCTile || b == GCStipple || b == GCClipMask || (b == GCDashList && c.dashes)))
  }

  /** A changed resource is not left in the cache. */
  ghost predicate SentAtOnce(c: Client, mask: Mask, attr: Values) {
    Waits(c, mask, attr, GCFont) || Waits(c, mask, attr, GCTile) || Waits(c, mask, attr, GCStipple)
  }

  /** From c to n the components of mask take the values of attr, whatever bits mask has. */
  ghost predicate ValuesSet(c: Client, n: Client, mask: Mask, attr: Values) {
    && (forall b :: 0 <= b < BITS ==> n.values[b] == if b in mask then attr[b] else c.values[b])
    && (n.rects <==> c.rects && GCClipMask !in mask)
    && (n.dashes <==> c.dashes && GCDashList !in mask)
  }

  /** The components that wait in a new context are those asked for that differ from the initial
      values, and a tile, stipple or clip mask; the server has them, and its own defaults otherwise. */
  ghost predicate CreatedWith(n: Client, cells: ServerGC, mask: Mask, attr: Values, d: Defaults) {
    && ValuesSet(Client(INITIAL_GC, {}, false, false), n, mask, attr)
    && n.dirty == {}
    && forall b :: 0 <= b < BITS ==>
      cells[b] ==
      (if b in mask && (attr[b] != INITIAL_GC[b] || b == GCTile || b == GCStipple || b == GCClipMask) then Wire(b, attr[b])
       else InitialCell(d, b))
  }

  /** What the server has in component b of a new context: what the client starts with, or a resource of its own. */
  function InitialCell(d: Defaults, b: nat): Cell
    requires b < BITS
  {
    if b == GCTile then Word(d.tile)
    else if b == GCStipple then Word(d.stipple)
    else if b == GCFont then Word(d.font)
    else Wire(b, INITIAL_GC[b])
  }

  /** What waits is dirty, or is sent if a resource is among it. */
  ghost predicate ChangedWith(c: Client, before: ServerGC, n: Client, cells: ServerGC, mask: Mask, attr: Values) {
    && ValuesSet(c, n, mask, attr)
    && forall b :: 0 <= b < BITS ==>
      && (b in n.dirty <==> Waits(c, mask, attr, b) && !SentAtOnce(c, mask, attr))
      && cells[b] == if Waits(c, mask, attr, b) && SentAtOnce(c, mask, attr) then Wire(b, n.values[b]) else before[b]
  }

  /** Everything that is dirty is sent if a component to be copied is. */
  ghost predicate SentForCopy(c: Client, before: ServerGC, n: Client, cells: ServerGC, mask: Mask) {
    var waits := exists b :: 0 <= b < BITS && b in mask && b in c.dirty;
    && n == c.(dirty := if waits then {} else c.dirty)
    && forall b :: 0 <= b < BITS ==> cells[b] == if waits && b in c.dirty then Wire(b, c.values[b]) else before[b]
  }

  /** The components of mask are those of the source, here and on the server, and are not dirty. */
  ghost predicate CopyOf(src: Client, ss: ServerGC, dst: Client, ds: ServerGC, n: Client, cells: ServerGC, mask: Mask) {
    && (forall b :: 0 <= b < BITS && b in mask ==> n.values[b] == src.values[b] && b !in n.dirty && cells[b] == ss[b])
    && (forall b :: 0 <= b < BITS && b !in mask ==>
        n.values[b] == dst.values[b] && (b in n.dirty <==> b in dst.dirty) && cells[b] == ds[b])
    && (n.rects <==> if GCClipMask in mask then src.rects else dst.rects)
    && (n.dashes <==> if GCDashList in mask then src.dashes else dst.dashes)
  }

  /** The clip origin is x, y here and on the server; the clip list is known to the server only. */
  ghost predicate ClippedTo(c: Client, before: ServerGC, n: Client, cells: ServerGC, x: int, y: int, list: Cell) {
    && n.rects && n.dashes == c.dashes
    && forall b :: 0 <= b < BITS ==>
      && n.values[b] == (if b == GCClipXOrigin then x else if b == GCClipYOrigin then y else c.values[b])
      && (b in n.dirty <==> b in c.dirty && b != GCClipXOrigin && b != GCClipYOrigin && b != GCClipMask)
      && cells[b] == if b == GCClipXOrigin then Word(x) else if b == GCClipYOrigin then Word(y)
                     else if b == GCClipMask then list else before[b]
  }

  /** The dash offset is the one given, here and on the server; the dash list is known to the server only. */
  ghost predicate DashedTo(c: Client, before: ServerGC, n: Client, cells: ServerGC, offset: int, list: Cell) {
    && n.dashes && n.rects == c.rects
    && forall b :: 0 <= b < BITS ==>
      && n.values[b] == (if b == GCDashOffset then offset else c.values[b])
      && (b in n.dirty <==> b in c.dirty && b != GCDashOffset && b != GCDashList)
      && cells[b] == if b == GCDashOffset then Word(offset) else if b == GCDashList then list else before[b]
  }

  lemma UpdatedComponents(c: Client, mask: Mask, attr: Values)
    requires forall b :: b in c.dirty ==> b < BITS
    ensures var u := Updated(c, Known(mask), attr);
      && ValuesSet(c, u, mask, attr)
      && (forall b :: 0 <= b < BITS ==> (b in u.dirty <==> Waits(c, mask, attr, b)))
      && (u.dirty * {GCFont, GCTile, GCStipple} != {} <==> SentAtOnce(c, mask, attr))
  {
    var u := Updated(c, Known(mask), attr);
    forall b | 0 <= b < BITS
      ensures u.values[b] == if b in mask then attr[b] else c.values[b]
      ensures b in u.dirty <==> Waits(c, mask, attr, b)
    {
      assert b in Known(mask) <==> b in mask;
    }
    assert GCClipMask in Known(mask) <==> GCClipMask in mask;
    assert GCDashList in Known(mask) <==> GCDashList in mask;
    var resources := u.dirty * {GCFont, GCTile, GCStipple};
    assert forall b :: b in resources <==> b in u.dirty && (b == GCFont || b == GCTile || b == GCStipple);
  }

  lemma FreshCells(d: Defaults)
    ensures forall b :: 0 <= b < BITS ==> Fresh(d)[b] == InitialCell(d, b)
  {
  }

  lemma BornComponents(c: Client, before: ServerGC, mask: Mask, attr: Values)
    requires c.dirty == {} && !c.rects && !c.dashes
    ensures var u := Updated(c, Known(mask), attr);
      && ValuesSet(c, u, mask, attr)
      && forall b :: 0 <= b < BITS ==>
        Sent(u, before)[b] ==
        if b in mask && (attr[b] != c.values[b] || b == GCTile || b == GCStipple || b == GCClipMask) then Wire(b, attr[b])
        else before[b]
  {
    UpdatedComponents(c, mask, attr);
  }

  lemma CreatedComponents(c: Client, mask: Mask, attr: Values, d: Defaults, before: ServerGC)
    requires c == Client(INITIAL_GC, {}, false, false) && before == Fresh(d)
    ensures CreatedWith(Updated(c, Known(mask), attr).(dirty := {}), Sent(Updated(c, Known(mask), attr), before), mask, attr, d)
  {
    BornComponents(c, before, mask, attr);
    FreshCells(d);
  }

  lemma ChangedComponents(c: Client, before: ServerGC, mask: Mask, attr: Values)
    requires forall b :: b in c.dirty ==> b < BITS
    ensures var u := Updated(c, Known(mask), attr);
      if u.dirty * {GCFont, GCTile, GCStipple} != {}
      then ChangedWith(c, before, u.(dirty := {}), Sent(u, before), mask, attr)
      else ChangedWith(c, before, u, before, mask, attr)
  {
    UpdatedComponents(c, mask, attr);
  }

  lemma SettledComponents(c: Client, before: ServerGC, mask: Mask)
    requires forall b :: b in c.dirty ==> b < BITS
    ensures SentForCopy(c, before, Settled(c, Known(mask)), Requested(c, before, Known(mask)), mask)
  {
    var waiting := c.dirty * Known(mask);
    assert forall b :: b in waiting <==> b in c.dirty && b in mask && 0 <= b < BITS;
  }

  lemma CopiedComponents(src: Client, ss: ServerGC, dst: Client, ds: ServerGC, mask: Mask)
    ensures CopyOf(src, ss, dst, ds, Copied(src, dst, Known(mask)), CopiedCells(ss, ds, Known(mask)), mask)
  {
    var u, cells := Copied(src, dst, Known(mask)), CopiedCells(ss, ds, Known(mask));
    forall b | 0 <= b < BITS
      ensures u.values[b] == (if b in mask then src.values[b] else dst.values[b])
      ensures b in u.dirty <==> b in dst.dirty && b !in mask
      ensures cells[b] == if b in mask then ss[b] else ds[b]
    {
      assert b in Known(mask) <==> b in mask;
    }
    assert GCClipMask in Known(mask) <==> GCClipMask in mask;
    assert GCDashList in Known(mask) <==> GCDashList in mask;
  }

  // ---------- the clients and the server as one system ----------

  /** Every context a program has, as the client and as the server see it. */
  datatype System = System(clients: map<nat, Client>, server: ServerState)

  datatype Call =
    | CallCreate(gid: nat, mask: Mask, attr: Values)
    | CallChange(gid: nat, mask: Mask, attr: Values)
    | CallCopy(src: nat, mask: Mask, dst: nat)
    | CallClip(gid: nat, x: int, y: int, rects: seq<(int, int, nat, nat)>, ordering: int)
    | CallDashes(gid: nat, offset: int, list: seq<int>)
    | CallFlush(gid: nat)

  ghost predicate Allowed(s: System, c: Call) {
    match c
    case CallCreate(gid, _, _) => gid !in s.clients
    case CallCopy(src, _, dst) => src in s.clients && dst in s.clients
    case _ => c.gid in s.clients
  }

  ghost predicate AllCoherent(s: System) {
    s.clients.Keys == s.server.Keys && forall g :: g in s.clients ==> g in s.server && Coherent(s.clients[g], s.server[g])
  }

  ghost function FlushedSystem(s: System, g: nat): System
    requires g in s.clients && g in s.server
  {
    System(s.clients[g := s.clients[g].(dirty := {})], s.server[g := Sent(s.clients[g], s.server[g])])
  }

  lemma FlushedSystemCoherent(s: System, g: nat)
    requires AllCoherent(s) && g in s.clients
    ensures AllCoherent(FlushedSystem(s, g)) && g in FlushedSystem(s, g).clients
    ensures FlushedSystem(s, g).clients[g] == s.clients[g].(dirty := {})
    ensures FlushedSystem(s, g).clients.Keys == s.clients.Keys
  {
    SentCoherent(s.clients[g], s.server[g]);
  }

  /** One call of the library. */
  ghost function Called(s: System, call: Call, d: Defaults): System
    requires s.clients.Keys == s.server.Keys && Allowed(s, call)
  {
    match call
    case CallCreate(g, mask, attr) =>
      var c := Updated(Client(INITIAL_GC, {}, false, false), Known(mask), attr);
      System(s.clients[g := c.(dirty := {})], s.server[g := Sent(c, Fresh(d))])
    case CallChange(g, mask, attr) =>
      var c := Updated(s.clients[g], Known(mask), attr);
      var s' := s.(clients := s.clients[g := c]);
      if c.dirty * {GCFont, GCTile, GCStipple} != {} then FlushedSystem(s', g) else s'
    case CallCopy(src, mask, dst) =>
      var s' := if s.clients[src].dirty * Known(mask) != {} then FlushedSystem(s, src) else s;
      System(s'.clients[dst := Copied(s'.clients[src], s'.clients[dst], Known(mask))],
             s'.server[dst := CopiedCells(s'.server[src], s'.server[dst], Known(mask))])
    case CallClip(g, x, y, rects, ordering) =>
      System(s.clients[g := Clipped(s.clients[g], x, y)],
             s.server[g := s.server[g][GCClipXOrigin := Word(x)][GCClipYOrigin := Word(y)][GCClipMask := ClipList(rects, ordering)]])
    case CallDashes(g, offset, list) =>
      System(s.clients[g := Dashed(s.clients[g], offset)],
             s.server[g := s.server[g][GCDashOffset := Word(offset)][GCDashList := DashList(list)]])
    case CallFlush(g) => FlushedSystem(s, g)
  }

  lemma CreatedCoherent(s: System, g: nat, mask: Mask, attr: Values, d: Defaults)
    requires AllCoherent(s) && Allowed(s, CallCreate(g, mask, attr))
    ensures AllCoherent(Called(s, CallCreate(g, mask, attr), d))
  {
    var born := Client(INITIAL_GC, {}, false, false);
    FreshCoherent(d);
    UpdatedCoherent(born, mask, attr, Fresh(d));
    SentCoherent(Updated(born, Known(mask), attr), Fresh(d));
  }

  lemma ChangeCoherent(s: System, g: nat, mask: Mask, attr: Values, d: Defaults)
    requires AllCoherent(s) && g in s.clients
    ensures AllCoherent(Called(s, CallChange(g, mask, attr), d))
  {
    UpdatedCoherent(s.clients[g], mask, attr, s.server[g]);
    SentCoherent(Updated(s.clients[g], Known(mask), attr), s.server[g]);
  }

  lemma CopyCoherent(s: System, src: nat, mask: Mask, dst: nat, d: Defaults)
    requires AllCoherent(s) && Allowed(s, CallCopy(src, mask, dst))
    ensures AllCoherent(Called(s, CallCopy(src, mask, dst), d))
  {
    FlushedSystemCoherent(s, src);
    var s' := if s.clients[src].dirty * Known(mask) != {} then FlushedSystem(s, src) else s;
    CopiedCoherent(s'.clients[src], s'.clients[dst], Known(mask), s'.server[src], s'.server[dst]);
  }

  /** Every call keeps every cache coherent. */
  lemma CalledCoherent(s: System, call: Call, d: Defaults)
    requires AllCoherent(s) && Allowed(s, call)
    ensures AllCoherent(Called(s, call, d))
  {
    match call
    case CallCreate(g, mask, attr) =>
      CreatedCoherent(s, g, mask, attr, d);
    case CallChange(g, mask, attr) =>
      ChangeCoherent(s, g, mask, attr, d);
    case CallCopy(src, mask, dst) =>
      CopyCoherent(s, src, mask, dst, d);
    case CallClip(g, x, y, rects, ordering) =>
      ClippedCoherent(s.clients[g], s.server[g], x, y, rects, ordering);
    case CallDashes(g, offset, list) =>
      DashedCoherent(s.clients[g], s.server[g], offset, list);
    case CallFlush(g) =>
      FlushedSystemCoherent(s, g);
  }

  /** The call can be made in state s, and leads to state n. */
  ghost predicate LeadsTo(s: System, call: Call, n: System, d: Defaults) {
    Allowed(s, call) && (s.clients.Keys == s.server.Keys ==> n == Called(s, call, d))
  }

  /** The calls can all be made, one after the other. */
  ghost predicate Runs(calls: seq<Call>, states: seq<System>, d: Defaults) {
    && |states| == |calls| + 1 && states[0] == System(map[], map[])
    && forall i :: 0 <= i < |calls| ==> LeadsTo(states[i], calls[i], states[i + 1], d)
  }

  /** A run starts without contexts, and goes on with any call that is allowed. */
  lemma RunsGrow(calls: seq<Call>, states: seq<System>, call: Call, d: Defaults)
    ensures Runs([], [System(map[], map[])], d)
    ensures Runs(calls, states, d) && Allowed(states[|calls|], call) ==>
      states[|calls|].clients.Keys == states[|calls|].server.Keys &&
      Runs(calls + [call], states + [Called(states[|calls|], call, d)], d)
  {
    if Runs(calls, states, d) && Allowed(states[|calls|], call) {
      RunCoherent(calls, states, d, |calls|);
      RunsOn(calls, states, call, Called(states[|calls|], call, d), d);
    }
  }

  lemma RunsOn(calls: seq<Call>, states: seq<System>, call: Call, n: System, d: Defaults)
    requires Runs(calls, states, d) && LeadsTo(states[|calls|], call, n, d)
    ensures Runs(calls + [call], states + [n], d)
  {
    var calls', states' := calls + [call], states + [n];
    forall i | 0 <= i < |calls'|
      ensures LeadsTo(states'[i], calls'[i], states'[i + 1], d)
    {
      if i < |calls| { assert LeadsTo(states[i], calls[i], states[i + 1], d); }
    }
  }

  /** Over any run of calls, every component that is neither dirty nor marked unknown is what the
      server has; after a flush that is every component not marked unknown. */
  lemma {:induction false} RunCoherent(calls: seq<Call>, states: seq<System>, d: Defaults, i: nat)
    requires Runs(calls, states, d) && i < |states|
    ensures AllCoherent(states[i])
    ensures forall g, b :: g in states[i].clients && g in states[i].server && 0 <= b < BITS ==>
      var c := states[i].clients[g];
      || b in c.dirty || (b == GCClipMask && c.rects) || (b == GCDashList && c.dashes)
      || ((b == GCTile || b == GCStipple || b == GCFont) && c.values[b] == UNKNOWN)
      || states[i].server[g][b] == Wire(b, c.values[b])
    ensures i > 0 && calls[i - 1].CallFlush? ==>
      var g := calls[i - 1].gid;
      g in states[i].clients && forall b :: 0 <= b < BITS && !ShadowUnknown(states[i].clients[g], b) ==>
        states[i].server[g][b] == Wire(b, states[i].clients[g].values[b])
  {
    if i > 0 {
      RunCoherent(calls, states, d, i - 1);
      assert LeadsTo(states[i - 1], calls[i - 1], states[i], d);
      CalledCoherent(states[i - 1], calls[i - 1], d);
      assert states[i] == Called(states[i - 1], calls[i - 1], d);
      if calls[i - 1].CallFlush? { FlushedSystemCoherent(states[i - 1], calls[i - 1].gid); }
    }
  }

  // ---------- the library calls ----------

  /** The order in which _XGenerateGCList tests the mask bits. */
  const EMIT_ORDER: seq<nat> := [
    GCFunction, GCPlaneMask, GCForeground, GCBackground, GCLineWidth, GCLineStyle, GCCapStyle, GCJoinStyle,
    GCFillStyle, GCFillRule, GCTile, GCStipple, GCTileStipXOrigin, GCTileStipYOrigin, GCFont, GCSubwindowMode,
    GCGraphicsExposures, GCClipXOrigin, GCClipYOrigin, GCClipMask, GCDashOffset, GCDashList, GCArcMode]

  /** The order in which _XUpdateGCCache tests the mask bits: the arc mode comes early. */
  const UPDATE_ORDER: seq<nat> := [
    GCFunction, GCPlaneMask, GCForeground, GCBackground, GCLineWidth, GCLineStyle, GCCapStyle, GCJoinStyle,
    GCFillStyle, GCFillRule, GCArcMode, GCTile, GCStipple, GCTileStipXOrigin, GCTileStipYOrigin, GCFont,
    GCSubwindowMode, GCGraphicsExposures, GCClipXOrigin, GCClipYOrigin, GCClipMask, GCDashOffset, GCDashList]

  /** The value list is emitted in ascending mask bit order. */
  lemma EmitOrderAscends()
    ensures |EMIT_ORDER| == BITS && forall k :: 0 <= k < BITS ==> EMIT_ORDER[k] == k
  {
  }

  /** The first k components that _XUpdateGCCache tests. */
  ghost function Tested(k: nat): set<nat>
    requires k <= |UPDATE_ORDER|
  {
    set j | 0 <= j < k :: UPDATE_ORDER[j]
  }

  /** Each component is tested once, and all are. */
  lemma UpdateOrderCovers()
    ensures |UPDATE_ORDER| == BITS
    ensures forall k :: 0 <= k < BITS ==> UPDATE_ORDER[k] == if k <= 9 then k else if k == 10 then 22 else k - 1
  {
  }

  lemma TestedNext(k: nat)
    requires k < BITS
    ensures |UPDATE_ORDER| == BITS
    ensures UPDATE_ORDER[k] < BITS && UPDATE_ORDER[k] !in Tested(k)
    ensures Tested(k + 1) == Tested(k) + {UPDATE_ORDER[k]}
  {
    UpdateOrderCovers();
    assert forall j :: 0 <= j < k ==> UPDATE_ORDER[j] != UPDATE_ORDER[k];
  }

  lemma TestedAll()
    ensures |UPDATE_ORDER| == BITS
    ensures forall b :: b in Tested(BITS) <==> 0 <= b < BITS
  {
    UpdateOrderCovers();
    forall b | 0 <= b < BITS
      ensures b in Tested(BITS)
    {
      assert UPDATE_ORDER[if b <= 9 then b else if b == 22 then 10 else b + 1] == b;
    }
  }

  lemma UpdatedNext(c: Client, mask: Mask, attr: Values, done: Mask, b: nat)
    requires b < BITS && b !in done
    ensures var u := Updated(c, mask * done, attr);
      Updated(c, mask * (done + {b}), attr) ==
      if b !in mask then u
      else if !NeedsSending(u, b, attr[b]) then u
      else Client(u.values[b := attr[b]], u.dirty + {b}, u.rects && b != GCClipMask, u.dashes && b != GCDashList)
  {
    var u, v := Updated(c, mask * done, attr), Updated(c, mask * (done + {b}), attr);
    if b !in mask {
      assert mask * (done + {b}) == mask * done;
    } else {
      assert u.values[b] == c.values[b];
      assert v.values == u.values[b := attr[b]];
      assert NeedsSending(u, b, attr[b]) <==> NeedsSending(c, b, attr[b]);
      assert v.dirty == if NeedsSending(c, b, attr[b]) then u.dirty + {b} else u.dirty;
    }
  }

  class Display {
    const defaults: Defaults
    var requests: seq<Request>      // what has been sent, in order
    var nextId: nat

    ghost predicate Valid()
      reads this
    {
      AllAcceptable(requests, defaults) && forall g :: g in Server(requests, defaults) ==> g < nextId
    }

    ghost function ServerSide(): ServerState
      reads this
      requires Valid()
    {
      Server(requests, defaults)
    }

    constructor (d: Defaults)
      ensures Valid() && requests == [] && defaults == d
    {
      defaults, requests, nextId := d, [], 1;
    }

    method Send(r: Request)
      requires Valid() && Acceptable(ServerSide(), r)
      requires r.CreateGC? ==> r.gid < nextId
      modifies this`requests
      ensures Valid() && requests == old(requests) + [r]
      ensures ServerSide() == Served(old(ServerSide()), r, defaults)
    {
      assert (requests + [r])[..|requests|] == requests;
      requests := requests + [r];
    }
  }

  class GC {
    var gid: nat
    var values: Values
    var dirty: Mask
    var rects: bool
    var dashes: bool

    constructor ()
      ensures View() == Client(INITIAL_GC, {}, false, false)
    {
      gid, values, dirty, rects, dashes := 0, INITIAL_GC, {}, false, false;
    }

    ghost function View(): Client
      reads this
    {
      Client(values, dirty, rects, dashes)
    }

    /** The server has this context and the cache of it is coherent. */
    ghost predicate Cached(dpy: Display)
      reads this, dpy
      requires dpy.Valid()
    {
      gid in dpy.ServerSide() && Coherent(View(), dpy.ServerSide()[gid])
    }

    /** _XUpdateGCCache. */
    method UpdateCache(mask: Mask, attr: Values)
      modifies this
      ensures gid == old(gid) && View() == Updated(old(View()), mask * Tested(|UPDATE_ORDER|), attr)
    {
      UpdateOrderCovers();
      UpdatedNone(View(), mask, attr);
      for k := 0 to |UPDATE_ORDER|
        invariant gid == old(gid) && View() == Updated(old(View()), mask * Tested(k), attr)
      {
        var b := UPDATE_ORDER[k];
        TestedNext(k);
        UpdatedNext(old(View()), mask, attr, Tested(k), b);
        if b in mask {
          if b == GCTile || b == GCStipple {
            values := values[b := attr[b]];
            dirty := dirty + {b};
          } else if b == GCClipMask {
            values := values[b := attr[b]];
            dirty := dirty + {b};
            rects := false;
          } else if b == GCDashList {
            if values[b] != attr[b] || dashes {
              values := values[b := attr[b]];
              dirty := dirty + {b};
              dashes := false;
            }
          } else if values[b] != attr[b] {
            values := values[b := attr[b]];
            dirty := dirty + {b};
          }
        }
      }
    }

    /** The guarded call of _XUpdateGCCache in XCreateGC and XChangeGC. */
    method Change(valuemask: Mask, attr: Values)
      modifies this
      ensures gid == old(gid) && View() == Updated(old(View()), Known(valuemask), attr)
    {
      var mask := set b | b in valuemask && b < BITS;
      TestedAll();
      if mask != {} {
        assert mask * Tested(BITS) == mask;
        UpdateCache(mask, attr);
      } else {
        assert mask * Tested(0) == mask;
        UpdatedNone(View(), mask, attr);
      }
    }

    /** The client side of XCopyGC. */
    method CopyFrom(src: GC, mask: Mask)
      modifies this
      ensures gid == old(gid) && View() == Copied(old(src.View()), old(View()), mask)
    {
      dirty := dirty - mask;
      var v, w := src.values, values;
      values := seq(BITS, b requires 0 <= b < BITS => if b in mask then v[b] else w[b]);
      if GCClipMask in mask {
        rects := src.rects;
      }
      if GCDashList in mask {
        dashes := src.dashes;
      }
    }

    /** _XGenerateGCList. */
    method GenerateList() returns (list: seq<int>)
      requires forall b :: b in dirty ==> b < BITS
      ensures Encodes(dirty, values, list, BITS)
    {
      EmitOrderAscends();
      list := [];
      RankZero(dirty);
      for k := 0 to |EMIT_ORDER|
        invariant Encodes(dirty, values, list, k)
      {
        RankNext(dirty, k);
        if EMIT_ORDER[k] in dirty {
          list := list + [values[EMIT_ORDER[k]]];
        }
      }
    }

    /** _XFlushGCCache. */
    method Flush(dpy: Display)
      requires dpy.Valid() && Cached(dpy)
      modifies this`dirty, dpy`requests
      ensures dpy.Valid() && Cached(dpy) && View() == old(View()).(dirty := {})
      ensures dpy.ServerSide() == old(dpy.ServerSide())[gid := Sent(old(View()), old(dpy.ServerSide())[gid])]
    {
      SentCoherent(View(), dpy.ServerSide()[gid]);
      if dirty != {} {
        var list := GenerateList();
        FlushedCoherent(View(), dpy.ServerSide()[gid], list);
        dpy.Send(ChangeGC(gid, dirty, list));
        dirty := {};
      }
    }
  }

  lemma UpdatedNone(c: Client, mask: Mask, attr: Values)
    ensures Updated(c, mask * Tested(0), attr) == c
  {
    var u := Updated(c, mask * Tested(0), attr);
    assert u.values == c.values;
    assert u.dirty == c.dirty;
  }

  lemma RankZero(mask: Mask)
    ensures Rank(mask, 0) == 0
  {
    assert (set x: nat | x in mask && x < 0) == {};
  }

  /** The client side of a new context. */
  method NewGC(valuemask: Mask, attr: Values) returns (gc: GC)
    ensures fresh(gc) && gc.View() == Updated(Client(INITIAL_GC, {}, false, false), Known(valuemask), attr)
  {
    gc := new GC();
    gc.Change(valuemask, attr);
  }

  /** The request that creates the context, with its dirty components. */
  method SendCreate(dpy: Display, gc: GC)
    requires dpy.Valid() && gc.gid < dpy.nextId && gc.gid !in dpy.ServerSide() && Coherent(gc.View(), Fresh(dpy.defaults))
    modifies gc`dirty, dpy`requests
    ensures dpy.Valid() && gc.Cached(dpy) && gc.View() == old(gc.View()).(dirty := {})
    ensures dpy.ServerSide() == old(dpy.ServerSide())[gc.gid := Sent(old(gc.View()), Fresh(dpy.defaults))]
  {
    var list := [];
    if gc.dirty != {} {
      list := gc.GenerateList();
    } else {
      NothingEncoded(gc.values);
    }
    FlushedCoherent(gc.View(), Fresh(dpy.defaults), list);
    dpy.Send(CreateGC(gc.gid, gc.dirty, list));
    gc.dirty := {};
  }

  /** The system has this context, as this client and this server show it. */
  ghost predicate Shows(s: System, dpy: Display, gc: GC)
    reads dpy, gc
    requires dpy.Valid()
  {
    AllCoherent(s) && s.server == dpy.ServerSide() && gc.gid in s.clients && s.clients[gc.gid] == gc.View()
  }

  /** The system after a call that concerns this context. */
  ghost function Now(s: System, dpy: Display, gc: GC): System
    reads dpy, gc
    requires dpy.Valid()
  {
    System(s.clients[gc.gid := gc.View()], dpy.ServerSide())
  }

  /** XCreateGC. */
  method XCreateGC(dpy: Display, valuemask: Mask, attr: Values, ghost s: System) returns (gc: GC)
    requires dpy.Valid() && AllCoherent(s) && s.server == dpy.ServerSide()
    modifies dpy
    ensures dpy.Valid() && gc.gid !in s.clients && Now(s, dpy, gc) == Called(s, CallCreate(gc.gid, valuemask, attr), dpy.defaults)
    ensures fresh(gc) && dpy.Valid() && gc.Cached(dpy) && gc.gid !in old(dpy.ServerSide())
    ensures gc.View() == Updated(Client(INITIAL_GC, {}, false, false), Known(valuemask), attr).(dirty := {})
    ensures Shows(Now(s, dpy, gc), dpy, gc)
    ensures CreatedWith(gc.View(), dpy.ServerSide()[gc.gid], valuemask, attr, dpy.defaults)
  {
    CreatedComponents(Client(INITIAL_GC, {}, false, false), valuemask, attr, dpy.defaults, Fresh(dpy.defaults));
    FreshCoherent(dpy.defaults);
    UpdatedCoherent(Client(INITIAL_GC, {}, false, false), valuemask, attr, Fresh(dpy.defaults));
    gc := NewGC(valuemask, attr);
    gc.gid := dpy.nextId;
    dpy.nextId := dpy.nextId + 1;
    SendCreate(dpy, gc);
    CalledCoherent(s, CallCreate(gc.gid, valuemask, attr), dpy.defaults);
  }

  lemma NothingEncoded(values: Values)
    ensures Encodes({}, values, [], BITS)
  {
    var empty: Mask := {};
    assert (set x | x in empty && x < BITS) == {};
  }

  /** XChangeGC: a changed resource is sent at once. */
  method XChangeGC(dpy: Display, gc: GC, valuemask: Mask, attr: Values, ghost s: System)
    requires dpy.Valid() && Shows(s, dpy, gc)
    modifies gc, dpy`requests
    ensures dpy.Valid() && gc.gid == old(gc.gid) && gc.Cached(dpy)
    ensures Now(s, dpy, gc) == Called(s, CallChange(gc.gid, valuemask, attr), dpy.defaults)
    ensures var u := Updated(old(gc.View()), Known(valuemask), attr);
      gc.View() == if u.dirty * {GCFont, GCTile, GCStipple} != {} then u.(dirty := {}) else u
    ensures gc.gid in old(dpy.ServerSide())
    ensures Shows(Now(s, dpy, gc), dpy, gc)
    ensures ChangedWith(old(gc.View()), old(dpy.ServerSide())[gc.gid], gc.View(), dpy.ServerSide()[gc.gid], valuemask, attr)
  {
    ClientIsCoherent(s, gc.gid);
    ChangedComponents(gc.View(), dpy.ServerSide()[gc.gid], valuemask, attr);
    UpdatedCoherent(gc.View(), valuemask, attr, dpy.ServerSide()[gc.gid]);
    gc.Change(valuemask, attr);
    if gc.dirty * {GCFont, GCTile, GCStipple} != {} {
      gc.Flush(dpy);
    }
    ChangeIsCalled(s, gc.gid, valuemask, attr, dpy.defaults, gc.View(), dpy.ServerSide());
    CalledCoherent(s, CallChange(gc.gid, valuemask, attr), dpy.defaults);
  }

  lemma ClientIsCoherent(s: System, g: nat)
    requires AllCoherent(s) && g in s.clients
    ensures g in s.server && Coherent(s.clients[g], s.server[g])
  {
  }

  lemma ChangeIsCalled(s: System, g: nat, mask: Mask, attr: Values, d: Defaults, view: Client, server: ServerState)
    requires s.clients.Keys == s.server.Keys && g in s.clients
    requires var u := Updated(s.clients[g], Known(mask), attr);
      if u.dirty * {GCFont, GCTile, GCStipple} != {} then view == u.(dirty := {}) && server == s.server[g := Sent(u, s.server[g])]
      else view == u && server == s.server
    ensures System(s.clients[g := view], server) == Called(s, CallChange(g, mask, attr), d)
  {
    var u := Updated(s.clients[g], Known(mask), attr);
    assert s.clients[g := u][g := u.(dirty := {})] == s.clients[g := u.(dirty := {})];
  }

  lemma CopyIsCalled(s: System, src: nat, mask: Mask, dst: nat, d: Defaults, sv: Client, dv: Client, server: ServerState)
    requires AllCoherent(s) && src in s.clients && dst in s.clients && sv == Settled(s.clients[src], Known(mask))
    requires dv == Copied(sv, if src == dst then sv else s.clients[dst], Known(mask)) && (src == dst ==> sv == dv)
    requires var before := s.server[src := Requested(s.clients[src], s.server[src], Known(mask))];
      server == before[dst := CopiedCells(before[src], before[dst], Known(mask))]
    ensures System(s.clients[src := sv][dst := dv], server) == Called(s, CallCopy(src, mask, dst), d)
    ensures SentForCopy(s.clients[src], s.server[src], sv, server[src], mask)
    ensures CopyOf(sv, server[src], if src == dst then sv else s.clients[dst], if src == dst then server[src] else s.server[dst],
                   dv, server[dst], mask)
  {
    CopyShown(s.clients[src], s.server[src], s.clients[dst], s.server[dst], mask);
    if s.clients[src].dirty * Known(mask) == {} {
      assert s.clients[src := sv] == s.clients && s.server[src := s.server[src]] == s.server;
    }
  }

  /** The server's components of the source when the copy is requested. */
  function Requested(c: Client, cells: ServerGC, mask: Mask): ServerGC {
    if c.dirty * mask != {} then Sent(c, cells) else cells
  }

  /** A copy to another context and one to itself. */
  lemma CopyShown(c: Client, ss: ServerGC, dst: Client, ds: ServerGC, mask: Mask)
    requires forall b :: b in c.dirty ==> b < BITS
    ensures var n, cells := Settled(c, Known(mask)), Requested(c, ss, Known(mask));
      && SentForCopy(c, ss, n, cells, mask)
      && CopyOf(n, cells, dst, ds, Copied(n, dst, Known(mask)), CopiedCells(cells, ds, Known(mask)), mask)
      && CopyOf(n, cells, n, cells, n, cells, mask) && CopiedCells(cells, cells, Known(mask)) == cells
  {
    var n, cells := Settled(c, Known(mask)), Requested(c, ss, Known(mask));
    SettledComponents(c, ss, mask);
    CopiedComponents(n, cells, dst, ds, mask);
    CopiedComponents(n, cells, n, cells, mask);
    CopiedToSelf(n, Known(mask));
    assert CopiedCells(cells, cells, Known(mask)) == cells;
  }

  /** The request, and the client side of the copy, once nothing that is copied is dirty in the source. */
  method SendCopy(dpy: Display, srcGC: GC, mask: Mask, destGC: GC)
    requires dpy.Valid() && srcGC.Cached(dpy) && destGC.Cached(dpy)
    requires (srcGC != destGC ==> srcGC.gid != destGC.gid) && srcGC.dirty * mask == {}
    modifies destGC, dpy`requests
    ensures dpy.Valid() && srcGC.Cached(dpy) && destGC.Cached(dpy) && destGC.gid == old(destGC.gid)
    ensures srcGC.View() == old(srcGC.View()) && destGC.View() == Copied(old(srcGC.View()), old(destGC.View()), mask)
    ensures dpy.ServerSide() == old(dpy.ServerSide())[destGC.gid := CopiedCells(old(dpy.ServerSide())[srcGC.gid], old(dpy.ServerSide())[destGC.gid], mask)]
  {
    ghost var c, d := srcGC.View(), destGC.View();
    CopiedCoherent(c, d, mask, dpy.ServerSide()[srcGC.gid], dpy.ServerSide()[destGC.gid]);
    if srcGC == destGC { CopiedToSelf(c, mask); }
    dpy.Send(CopyGC(srcGC.gid, destGC.gid, mask));
    destGC.CopyFrom(srcGC, mask);
  }

  /** The calls of XCopyGC: what is to be copied is sent first. */
  method SettleAndCopy(dpy: Display, srcGC: GC, mask: Mask, destGC: GC)
    requires dpy.Valid() && srcGC.Cached(dpy) && destGC.Cached(dpy)
    requires srcGC != destGC ==> srcGC.gid != destGC.gid
    modifies srcGC, destGC, dpy`requests
    ensures dpy.Valid() && srcGC.gid == old(srcGC.gid) && destGC.gid == old(destGC.gid)
    ensures srcGC.Cached(dpy) && destGC.Cached(dpy) && srcGC.View() == Settled(old(srcGC.View()), mask)
    ensures destGC.View() == Copied(srcGC.View(), if srcGC == destGC then srcGC.View() else old(destGC.View()), mask)
    ensures var before := old(dpy.ServerSide())[srcGC.gid := Requested(old(srcGC.View()), old(dpy.ServerSide())[srcGC.gid], mask)];
      dpy.ServerSide() == before[destGC.gid := CopiedCells(before[srcGC.gid], before[destGC.gid], mask)]
  {
    ghost var c, server := srcGC.View(), dpy.ServerSide();
    if srcGC.dirty * mask != {} {
      srcGC.Flush(dpy);
    } else {
      assert server[srcGC.gid := server[srcGC.gid]] == server;
    }
    assert dpy.ServerSide() == server[srcGC.gid := Requested(c, server[srcGC.gid], mask)];
    SendCopy(dpy, srcGC, mask, destGC);
    if srcGC == destGC { CopiedToSelf(srcGC.View(), mask); }
  }

  /** XCopyGC; the two contexts may be the same. */
  method XCopyGC(dpy: Display, srcGC: GC, valuemask: Mask, destGC: GC, ghost s: System)
    requires dpy.Valid() && Shows(s, dpy, srcGC) && Shows(s, dpy, destGC)
    requires srcGC != destGC ==> srcGC.gid != destGC.gid
    modifies srcGC, destGC, dpy`requests
    ensures dpy.Valid() && srcGC.gid == old(srcGC.gid) && destGC.gid == old(destGC.gid)
    ensures srcGC.Cached(dpy) && destGC.Cached(dpy)
    ensures System(s.clients[srcGC.gid := srcGC.View()][destGC.gid := destGC.View()], dpy.ServerSide()) ==
            Called(s, CallCopy(srcGC.gid, valuemask, destGC.gid), dpy.defaults)
    ensures srcGC.gid in old(dpy.ServerSide()) && destGC.gid in old(dpy.ServerSide())
    ensures SentForCopy(old(srcGC.View()), old(dpy.ServerSide())[srcGC.gid], srcGC.View(), dpy.ServerSide()[srcGC.gid], valuemask)
    ensures var n := System(s.clients[srcGC.gid := srcGC.View()][destGC.gid := destGC.View()], dpy.ServerSide());
      Shows(n, dpy, srcGC) && Shows(n, dpy, destGC)
    ensures CopyOf(srcGC.View(), dpy.ServerSide()[srcGC.gid],
                   if srcGC == destGC then srcGC.View() else old(destGC.View()),
                   if srcGC == destGC then dpy.ServerSide()[srcGC.gid] else old(dpy.ServerSide())[destGC.gid],
                   destGC.View(), dpy.ServerSide()[destGC.gid], valuemask)
  {
    var mask := set b | b in valuemask && b < BITS;
    ClientIsCoherent(s, srcGC.gid);
    ClientIsCoherent(s, destGC.gid);
    SettleAndCopy(dpy, srcGC, mask, destGC);
    CopyIsCalled(s, srcGC.gid, valuemask, destGC.gid, dpy.defaults, srcGC.View(), destGC.View(), dpy.ServerSide());
    CalledCoherent(s, CallCopy(srcGC.gid, valuemask, destGC.gid), dpy.defaults);
  }

  /** The source of a copy: flushed if something to be copied was dirty. */
  function Settled(c: Client, mask: Mask): Client {
    if c.dirty * mask != {} then c.(dirty := {}) else c
  }

  lemma CopiedToSelf(c: Client, mask: Mask)
    requires c.dirty * mask == {}
    ensures Copied(c, c, mask) == c
  {
    forall b | b in c.dirty
      ensures b !in mask
    {
      assert b in mask ==> b in c.dirty * mask;
    }
    assert c.dirty - mask == c.dirty;
  }

  lemma ClipIsCalled(s: System, g: nat, x: int, y: int, rects: seq<(int, int, nat, nat)>, ordering: int, d: Defaults)
    requires AllCoherent(s) && g in s.clients
    ensures var c, cells := Clipped(s.clients[g], x, y),
                s.server[g][GCClipXOrigin := Word(x)][GCClipYOrigin := Word(y)][GCClipMask := ClipList(rects, ordering)];
      && System(s.clients[g := c], s.server[g := cells]) == Called(s, CallClip(g, x, y, rects, ordering), d)
      && AllCoherent(System(s.clients[g := c], s.server[g := cells])) && Coherent(c, cells)
      && ClippedTo(s.clients[g], s.server[g], c, cells, x, y, ClipList(rects, ordering))
  {
    CalledCoherent(s, CallClip(g, x, y, rects, ordering), d);
    ClippedCoherent(s.clients[g], s.server[g], x, y, rects, ordering);
  }

  lemma DashesIsCalled(s: System, g: nat, offset: int, list: seq<int>, d: Defaults)
    requires AllCoherent(s) && g in s.clients
    ensures var c, cells := Dashed(s.clients[g], offset), s.server[g][GCDashOffset := Word(offset)][GCDashList := DashList(list)];
      && System(s.clients[g := c], s.server[g := cells]) == Called(s, CallDashes(g, offset, list), d)
      && AllCoherent(System(s.clients[g := c], s.server[g := cells])) && Coherent(c, cells)
      && DashedTo(s.clients[g], s.server[g], c, cells, offset, DashList(list))
  {
    CalledCoherent(s, CallDashes(g, offset, list), d);
    DashedCoherent(s.clients[g], s.server[g], offset, list);
  }

  /** _XSetClipRectangles. */
  method SetClipRectanglesOf(dpy: Display, gc: GC, x: int, y: int, rects: seq<(int, int, nat, nat)>, ordering: int, ghost s: System)
    requires dpy.Valid() && Shows(s, dpy, gc)
    modifies gc, dpy`requests
    ensures dpy.Valid() && gc.gid == old(gc.gid) && gc.Cached(dpy)
    ensures Now(s, dpy, gc) == Called(s, CallClip(gc.gid, x, y, rects, ordering), dpy.defaults)
    ensures gc.View() == Clipped(old(gc.View()), x, y)
    ensures gc.gid in old(dpy.ServerSide())
    ensures Shows(Now(s, dpy, gc), dpy, gc)
    ensures ClippedTo(old(gc.View()), old(dpy.ServerSide())[gc.gid], gc.View(), dpy.ServerSide()[gc.gid], x, y, ClipList(rects, ordering))
  {
    ClientIsCoherent(s, gc.gid);
    ClipIsCalled(s, gc.gid, x, y, rects, ordering, dpy.defaults);
    gc.values := gc.values[GCClipXOrigin := x];
    gc.values := gc.values[GCClipYOrigin := y];
    dpy.Send(SetClipRectangles(gc.gid, x, y, rects, ordering));
    gc.rects := true;
    gc.dirty := gc.dirty - {GCClipMask, GCClipXOrigin, GCClipYOrigin};
  }

  /** XSetDashes. */
  method XSetDashes(dpy: Display, gc: GC, offset: int, list: seq<int>, ghost s: System)
    requires dpy.Valid() && Shows(s, dpy, gc)
    modifies gc, dpy`requests
    ensures dpy.Valid() && gc.gid == old(gc.gid) && gc.Cached(dpy)
    ensures Now(s, dpy, gc) == Called(s, CallDashes(gc.gid, offset, list), dpy.defaults)
    ensures gc.View() == Dashed(old(gc.View()), offset)
    ensures gc.gid in old(dpy.ServerSide())
    ensures Shows(Now(s, dpy, gc), dpy, gc)
    ensures DashedTo(old(gc.View()), old(dpy.ServerSide())[gc.gid], gc.View(), dpy.ServerSide()[gc.gid], offset, DashList(list))
  {
    ClientIsCoherent(s, gc.gid);
    DashesIsCalled(s, gc.gid, offset, list, dpy.defaults);
    gc.values := gc.values[GCDashOffset := offset];
    dpy.Send(SetDashes(gc.gid, offset, list));
    gc.dashes := true;
    gc.dirty := gc.dirty - {GCDashList, GCDashOffset};
  }

  /** XFlushGC. */
  method XFlushGC(dpy: Display, gc: GC, ghost s: System)
    requires dpy.Valid() && Shows(s, dpy, gc)
    modifies gc`dirty, dpy`requests
    ensures dpy.Valid() && gc.Cached(dpy) && gc.View() == old(gc.View()).(dirty := {})
    ensures Shows(Now(s, dpy, gc), dpy, gc)
    ensures Now(s, dpy, gc) == Called(s, CallFlush(gc.gid), dpy.defaults)
  {
    ClientIsCoherent(s, gc.gid);
    gc.Flush(dpy);
    FlushIsCalled(s, gc.gid, dpy.defaults, gc.View(), dpy.ServerSide());
  }

  lemma FlushIsCalled(s: System, g: nat, d: Defaults, view: Client, server: ServerState)
    requires s.clients.Keys == s.server.Keys && g in s.clients
    requires view == s.clients[g].(dirty := {}) && server == s.server[g := Sent(s.clients[g], s.server[g])]
    ensures System(s.clients[g := view], server) == Called(s, CallFlush(g), d)
  {
  }
}
