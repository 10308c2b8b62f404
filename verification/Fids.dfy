/** What one request does to the server's fid table (libmixp/request.c): the checks made before the
    handler is called, the fids made for it, and what its answer leaves behind. Handlers are
    arbitrary: an outcome says whether one fails and what it found. */
module Fids {
  import opened Common
  import opened Wire
  import opened Layout

  /** omode is a signed char, -1 for a fid that is not open. */
  datatype Fid = Fid(omode: int, qid: Qid)

  type FidMap = map<u64, Fid>

  /** The key under which createfid enters a fid: it takes an int, which the map sign extends. Requests
      look fids up as they are. */
  function Key(fid: u32): u64 { if fid < 0x8000_0000 then fid else fid + 0xFFFF_FFFF_0000_0000 }

  /** The keys under which createfid enters fids. */
  predicate KeysMade(fids: FidMap) {
    forall k :: k in fids ==> k < 0x8000_0000 || 0xFFFF_FFFF_8000_0000 <= k
  }

  const NO_QID := Qid(0, 0, 0)
  const NEW_FID := Fid(-1, NO_QID)

  datatype Tmsg =
    | Tversion(msize: u32)
    | Tattach(fid: u32)
    | Tflush(oldtag: u16)
    | Twalk(fid: u32, newfid: u32, nwname: u16)
    | Topen(fid: u32, mode: u8)
    | Tcreate(fid: u32, mode: u8)
    | Tread(fid: u32)
    | Twrite(fid: u32)
    | Tclunk(fid: u32)
    | Tremove(fid: u32)
    | Tstat(fid: u32)
    | Tother(typ: u8)      // any other type

  datatype Error = Dupfid | Nofunc | Botch | Nofile | Nofid | Notag | Notdir | Intr | Isdir
    | WalkOpen | NotWritable | Duptag | FromHandler(n: nat)

  /** How a handler ends: an error or not, the qid of the file attached, opened or created, and
      the qids of the components walked. */
  datatype Outcome = Outcome(error: Option<Error>, qid: Qid, wqids: seq<Qid>)

  function Fail(e: Error): Outcome { Outcome(Some(e), NO_QID, []) }

  const DONE := Outcome(None, NO_QID, [])

  function TypeOf(m: Tmsg): u8 {
    match m
    case Tversion(_) => TVERSION
    case Tattach(_) => TATTACH
    case Tflush(_) => TFLUSH
    case Twalk(_, _, _) => TWALK
    case Topen(_, _) => TOPEN
    case Tcreate(_, _) => TCREATE
    case Tread(_) => TREAD
    case Twrite(_) => TWRITE
    case Tclunk(_) => TCLUNK
    case Tremove(_) => TREMOVE
    case Tstat(_) => TSTAT
    case Tother(t) => t
  }

  predicate IsDir(q: Qid) { q.typ >= 0x80 }

  /** The conversion of a mode byte to a signed char. */
  function Signed(mode: u8): int { if mode < 0x80 then mode else mode - 0x100 }

  predicate Writing(omode: int) { omode % 4 == 1 || omode % 4 == 2 }

  /** The error with which handlereq itself answers; None when it goes on to the handler. */
  function Refusal(fids: FidMap, m: Tmsg): Option<Error> {
    match m
    case Tversion(_) => None
    case Tflush(_) => None
    case Tother(_) => Some(Nofunc)
    case Tattach(f) => if Key(f) in fids then Some(Dupfid) else None
    case _ =>
      if m.fid !in fids then Some(Nofid)
      else
        var f := fids[m.fid];
        match m
        case Twalk(_, newfid, nwname) =>
          if f.omode != -1 then Some(WalkOpen)
          else if nwname != 0 && !IsDir(f.qid) then Some(Notdir)
          else if newfid != m.fid && Key(newfid) in fids then Some(Dupfid)
          else None
        case Topen(_, mode) => if IsDir(f.qid) && mode !in {0, 64} then Some(Isdir) else None
        case Tcreate(_, _) => if f.omode != -1 then Some(Botch) else if !IsDir(f.qid) then Some(Notdir) else None
        case Tread(_) => if f.omode == -1 || f.omode == 1 then Some(Botch) else None
        case Twrite(_) => if !Writing(f.omode) then Some(NotWritable) else None
        case _ => None
  }

  /** The fid made before the handler runs. */
  function Made(m: Tmsg): set<u64> {
    match m
    case Tattach(f) => {Key(f)}
    case Twalk(f, newfid, _) => if newfid != f then {Key(newfid)} else {}
    case _ => {}
  }

  /** The entry that a walk is to leave at the file it reaches. */
  function Target(m: Tmsg): u64
    requires m.Twalk?
  {
    if m.newfid != m.fid then Key(m.newfid) else m.fid
  }

  function Entered(fids: FidMap, m: Tmsg): FidMap {
    fids + (map f | f in Made(m) :: NEW_FID)
  }

  predicate FullWalk(m: Tmsg, o: Outcome)
    requires m.Twalk?
  {
    o.error == None && m.nwname <= |o.wqids|
  }

  /** The fids that the answer removes. */
  function Dropped(m: Tmsg, o: Outcome): set<u64> {
    match m
    case Tclunk(f) => {f}
    case Tremove(f) => {f}
    case Tattach(f) => if o.error != None then {Key(f)} else {}
    case Twalk(_, _, _) => if FullWalk(m, o) then {} else Made(m)
    case _ => {}
  }

  /** The fid that the answer changes, and what it becomes. */
  function Changed(fids: FidMap, m: Tmsg, o: Outcome): FidMap {
    match m
    case Tattach(f) => if o.error == None && Key(f) in fids then map[Key(f) := fids[Key(f)].(qid := o.qid)] else map[]
    case Topen(f, mode) => if o.error == None then map[f := Fid(Signed(mode), o.qid)] else map[]
    case Tcreate(f, mode) => if o.error == None then map[f := Fid(Signed(mode), o.qid)] else map[]
    case Twalk(f, _, _) =>
      if FullWalk(m, o) && f in fids && Target(m) in fids
      then map[Target(m) := fids[Target(m)].(qid := if o.wqids == [] then fids[f].qid else o.wqids[|o.wqids| - 1])]
      else map[]
    case _ => map[]
  }

  /** The table after mixp_respond for a request that went to the handler. */
  function Settled(fids: FidMap, m: Tmsg, o: Outcome): FidMap {
    fids + Changed(fids, m, o) - Dropped(m, o)
  }

  function ReplyError(m: Tmsg, o: Outcome): Option<Error> {
    if m.Twalk? && o.error == None && o.wqids == [] && m.nwname > 0 then Some(Nofile) else o.error
  }

  /** One request, answered at once. */
  function Served(fids: FidMap, m: Tmsg, o: Outcome): FidMap {
    if Refusal(fids, m) == None then Settled(Entered(fids, m), m, o) else fids
  }

  // ---------- what the answers mean ----------

  /** walk(5): newfid comes to exist exactly when every component was walked, unopened and at the
      last file (or at the source, on a clone); otherwise nothing changed. */
  lemma WalkExact(fids: FidMap, f: u32, newfid: u32, n: u16, o: Outcome)
    requires Refusal(fids, Twalk(f, newfid, n)) == None
    ensures var m := Twalk(f, newfid, n);
            var q := if o.wqids == [] then fids[f].qid else o.wqids[|o.wqids| - 1];
            && Served(fids, m, o) == (if FullWalk(m, o) then fids[Target(m) := Fid(-1, q)] else fids)
            && (Target(m) in Served(fids, m, o) <==> newfid == f || FullWalk(m, o))
  {
    var m := Twalk(f, newfid, n);
    var e := Entered(fids, m);
    assert f in fids && fids[f].omode == -1;
    if FullWalk(m, o) {
      var q := if o.wqids == [] then fids[f].qid else o.wqids[|o.wqids| - 1];
      assert Target(m) in e && e[Target(m)].omode == -1 && e[f] == fids[f];
      assert Settled(e, m, o) == e[Target(m) := Fid(-1, q)];
      assert e[Target(m) := Fid(-1, q)] == fids[Target(m) := Fid(-1, q)];
    } else {
      assert Settled(e, m, o) == fids;
    }
  }

  /** An attached fid is unopened and at the handler's file; it can be used exactly when it is below 2^31. */
  lemma AttachedFoundExact(fids: FidMap, f: u32, o: Outcome)
    requires Refusal(fids, Tattach(f)) == None && f !in fids && o.error == None
    ensures Refusal(Served(fids, Tattach(f), o), Tclunk(f)) == None <==> f < 0x8000_0000
    ensures Served(fids, Tattach(f), o) == fids[Key(f) := Fid(-1, o.qid)]
  {
    var e := Entered(fids, Tattach(f));
    assert Settled(e, Tattach(f), o) == e[Key(f) := e[Key(f)].(qid := o.qid)];
  }

  /** The reply says whether newfid exists: Rerror when the first component failed, otherwise as
      many qids as were walked. */
  lemma WalkReply(m: Tmsg, o: Outcome)
    requires m.Twalk?
    ensures FullWalk(m, o) <==> ReplyError(m, o) == None && m.nwname <= |o.wqids|
    ensures ReplyError(m, o) == None && !FullWalk(m, o) ==> 0 < |o.wqids| < m.nwname
  {}

  /** clunk(5), remove(5): a known fid is gone afterwards, whatever the handler says; no other
      fid is touched. */
  lemma ClunkDrops(fids: FidMap, m: Tmsg, o: Outcome)
    requires m.Tclunk? || m.Tremove?
    ensures Served(fids, m, o) == fids - {m.fid}
  {}

  /** A request that fails leaves the table as it was, unless it is a clunk or a remove. */
  lemma FailureChangesNothing(fids: FidMap, m: Tmsg, o: Outcome)
    requires o.error != None && !m.Tclunk? && !m.Tremove?
    ensures Served(fids, m, o) == fids
  {
    if Refusal(fids, m) == None {
      assert Made(m) !! fids.Keys;
      assert Settled(Entered(fids, m), m, o) == fids;
    }
  }

  /** Which fids a request can add or remove. */
  lemma ServedKeys(fids: FidMap, m: Tmsg, o: Outcome)
    ensures Served(fids, m, o).Keys == if Refusal(fids, m) != None then fids.Keys
                                       else fids.Keys + Made(m) - Dropped(m, o)
  {
    var e := Entered(fids, m);
    if Refusal(fids, m) == None {
      assert Changed(e, m, o).Keys <= e.Keys;
    }
  }

  /** A successful open or create gives the fid its mode and its qid and changes no other. A fid opened
      with mode 255 still counts as not open: this is the only such mode. */
  lemma OpenExact(fids: FidMap, m: Tmsg, o: Outcome)
    requires (m.Topen? || m.Tcreate?) && Refusal(fids, m) == None && o.error == None
    ensures var fids' := Served(fids, m, o);
            && fids' == fids[m.fid := Fid(Signed(m.mode), o.qid)]
            && (fids'[m.fid].omode == -1 <==> m.mode == 255)
            && (Refusal(fids', Twrite(m.fid)) == None <==> m.mode % 4 in {1, 2})
            && (Refusal(fids', Tread(m.fid)) == None <==> m.mode !in {1, 255})
            && (Refusal(fids', Twalk(m.fid, m.fid, 0)) == None <==> m.mode == 255)
  {
    assert Entered(fids, m) == fids;
  }

  /** The check of Tread compares the whole mode with OWRITE: a fid opened for writing only, with
      truncation, may be read. */
  lemma ReadOfWriteOnly(fids: FidMap, f: u32, o: Outcome)
    requires f in fids && !IsDir(fids[f].qid) && o.error == None
    ensures Refusal(Served(fids, Topen(f, 1 + 16), o), Tread(f)) == None
    ensures Refusal(Served(fids, Topen(f, 1), o), Tread(f)) == Some(Botch)
  {
    OpenExact(fids, Topen(f, 17), o);
    OpenExact(fids, Topen(f, 1), o);
    assert Entered(fids, Topen(f, 1)) == fids;
  }

  // ---------- sizes ----------

  const MAX_MSG: u32 := 8192

  /** The conversion of an unsigned int to an int. */
  function ToInt(n: u32): int { if n < 0x8000_0000 then n else n - 0x1_0000_0000 }

  function Min(a: int, b: int): int { if a < b then a else b }

  /** The size of the buffers after a Tversion. */
  function Negotiated(msize: u32): u32 {
    var asked := if msize == 0 then MAX_MSG else msize;
    var n := Min(ToInt(asked), ToInt(MAX_MSG));
    if n < 1 then MAX_MSG else n
  }

  /** The iounit of Ropen and Rcreate: an unsigned difference, sent in 32 bits. */
  function Iounit(size: u32): u32 { (size - 16) % 0x1_0000_0000 }

  /** What the version call settles, and when the iounit offered afterwards is one. */
  lemma NegotiatedExact(msize: u32)
    ensures Negotiated(msize) == if 0 < msize <= 8192 then msize else 8192
    ensures Iounit(Negotiated(msize)) ==
              if msize == 0 || 8192 < msize then 8176 else if msize < 16 then 0xFFFF_FFF0 + msize else msize - 16
    ensures Iounit(Negotiated(msize)) < Negotiated(msize) <==> !(0 < msize < 16)
    ensures Iounit(Negotiated(msize)) >= 0x8000_0000 <==> 0 < msize < 16
  {}
}
