/**
 ControllerExpandVolume for block and file storage: one request on one volume, and any number of them.
 */
module Expansion {
  import opened Common
  import opened Capacity

  /** The sizes a kind of storage supports, and whether a node has a filesystem on it to grow. */
  datatype Limits = Limits(minGiB: int, maxGiB: int, onNode: bool)

  const BlockLimits := Limits(1, 4096, true)
  const FileLimits := Limits(250, 25000, false)

  predicate Sane(l: Limits) { 0 < l.minGiB <= l.maxGiB }

  datatype Request = Request(range: Option<Range>, rawBlock: bool, reply: Outcome)

  datatype Response = Expanded(capacity: int, nodeExpansion: bool) | InvalidArgument | NotInRange | Internal

  function Wanted(q: Request, l: Limits): Size {
    ValidateCapacityRange(q.range, l.minGiB * GiB, l.maxGiB * GiB)
  }

  /** The size of a volume after a request, and the reply. */
  function Expand(size: int, q: Request, l: Limits): (int, Response) {
    if q.range.None? then (size, InvalidArgument)
    else match Wanted(q, l)
      case OutOfRange => (size, NotInRange)
      case Bytes(n) =>
        if InGiB(n) <= size then (size, Expanded(size * GiB, l.onNode && !q.rawBlock))
        else match q.reply
          case Rejected => (size, Internal)
          case LostReply => (InGiB(n), Internal)
          case Fine => (InGiB(n), Expanded(InGiB(n) * GiB, l.onNode && !q.rawBlock))
  }

  /** A volume as the backend keeps it; the controller changes its size through resize calls. */
  class Volume {
    var size: int

    constructor (size: int)
      ensures this.size == size
    {
      this.size := size;
    }

    /** ModifyStorage and the wait for the volume to be online again; an error may come after the size has changed. */
    method ResizeBlockDevice(newSize: int, reply: Outcome) returns (ok: bool)
      modifies this
      ensures ok == reply.Fine?
      ensures size == if reply.Rejected? then old(size) else newSize
    {
      if reply.Rejected? {
        return false;
      }
      size := newSize;
      return reply.Fine?;
    }

    method ControllerExpandVolume(q: Request, l: Limits) returns (r: Response)
      requires Sane(l)
      modifies this
      ensures (size, r) == Expand(old(size), q, l)
      ensures old(size) <= size && (size != old(size) ==> Counts(q, l) && size == Target(q, l))
      ensures Counts(q, l) && !r.Internal? ==> size == Max(old(size), Target(q, l))
      ensures r.Expanded? ==> r.capacity == size * GiB && q.range.Some? && q.range.value.required - GiB < r.capacity
      ensures q.range.Some? && Satisfiable(q.range, l.minGiB * GiB, l.maxGiB * GiB) && q.reply.Fine? ==> r.Expanded?
      ensures r.Expanded? ==> (r.nodeExpansion <==> l.onNode && !q.rawBlock)
      ensures r.Internal? <==> Wanted(q, l).Bytes? && q.range.Some? && old(size) < InGiB(Wanted(q, l).n) && !q.reply.Fine?
      ensures r.InvalidArgument? <==> q.range.None?
      ensures r.NotInRange? <==> q.range.Some? && !Satisfiable(q.range, l.minGiB * GiB, l.maxGiB * GiB)
    {
      ReportedCapacity(size, q, l);
      CapacityAcceptance(q.range, l.minGiB * GiB, l.maxGiB * GiB);
      if q.range.None? {
        return InvalidArgument;
      }
      var bytes := ValidateCapacityRange(q.range, l.minGiB * GiB, l.maxGiB * GiB);
      if bytes.OutOfRange? {
        return NotInRange;
      }
      var resizeGiB := bytes.n / GiB;
      if resizeGiB <= size {
        return Expanded(size * GiB, l.onNode && !q.rawBlock);
      }
      var ok := ResizeBlockDevice(resizeGiB, q.reply);
      if !ok {
        return Internal;
      }
      return Expanded(resizeGiB * GiB, l.onNode && !q.rawBlock);
    }
  }

  /** A reported capacity is the actual size, never shrinks the volume and is less than one GiB short of what was required. */
  lemma ReportedCapacity(size: int, q: Request, l: Limits)
    requires Sane(l)
    ensures var (after, r) := Expand(size, q, l);
      && size <= after
      && (r.Expanded? ==> r.capacity == after * GiB && q.range.Some? && q.range.value.required - GiB < r.capacity)
      && (r.Expanded? && after != size ==> after <= l.maxGiB)
  {
    if q.range.Some? && Wanted(q, l).Bytes? {
      FlooredSize(q.range, l.minGiB, l.maxGiB);
      CapacityAcceptance(q.range, l.minGiB * GiB, l.maxGiB * GiB);
    }
  }

  /** After an attempt that failed, before or after its effect, repeating the request gives what a first undisturbed call gives. */
  lemma ExpandRetry(size: int, q: Request, l: Limits)
    ensures var again := q.(reply := Fine);
      Expand(Expand(size, q, l).0, again, l) == Expand(size, again, l)
  {
  }

  // ----- any number of requests -----

  function ExpandAll(size: int, qs: seq<Request>, l: Limits): int {
    if qs == [] then size else Expand(ExpandAll(size, qs[..|qs| - 1], l), qs[|qs| - 1], l).0
  }

  /** A request that reached, or would have reached, the backend. */
  predicate Counts(q: Request, l: Limits) {
    q.range.Some? && Wanted(q, l).Bytes? && !q.reply.Rejected?
  }

  function Target(q: Request, l: Limits): int
    requires Counts(q, l)
  {
    InGiB(Wanted(q, l).n)
  }

  ghost predicate IsMaximum(m: int, size: int, qs: seq<Request>, l: Limits) {
    && size <= m
    && (forall i :: 0 <= i < |qs| && Counts(qs[i], l) ==> Target(qs[i], l) <= m)
    && (m == size || exists i :: 0 <= i < |qs| && Counts(qs[i], l) && Target(qs[i], l) == m)
  }

  /** After any requests, with resize calls failing before or after they take effect, the size is the running maximum. */
  lemma {:induction false} ExpansionIsRunningMaximum(size: int, qs: seq<Request>, l: Limits)
    ensures IsMaximum(ExpandAll(size, qs, l), size, qs, l)
  {
    if qs != [] {
      var front, q := qs[..|qs| - 1], qs[|qs| - 1];
      ExpansionIsRunningMaximum(size, front, l);
      var m := ExpandAll(size, front, l);
      var after := Expand(m, q, l).0;
      if after == m {
        if m != size {
          var i :| 0 <= i < |front| && Counts(front[i], l) && Target(front[i], l) == m;
          assert qs[i] == front[i];
        }
      } else {
        assert Counts(qs[|qs| - 1], l) && Target(qs[|qs| - 1], l) == after;
      }
      forall i | 0 <= i < |qs| && Counts(qs[i], l) ensures Target(qs[i], l) <= after {
        if i < |front| { assert front[i] == qs[i]; }
      }
    }
  }

  /** Order and repetition of the requests do not matter. */
  lemma ExpansionIgnoresOrder(size: int, ps: seq<Request>, qs: seq<Request>, l: Limits)
    requires forall q :: q in ps <==> q in qs
    ensures ExpandAll(size, ps, l) == ExpandAll(size, qs, l)
  {
    ExpansionIsRunningMaximum(size, ps, l);
    ExpansionIsRunningMaximum(size, qs, l);
    var m, n := ExpandAll(size, ps, l), ExpandAll(size, qs, l);
    if m != size {
      var i :| 0 <= i < |ps| && Counts(ps[i], l) && Target(ps[i], l) == m;
      assert ps[i] in qs;
    }
    if n != size {
      var i :| 0 <= i < |qs| && Counts(qs[i], l) && Target(qs[i], l) == n;
      assert qs[i] in ps;
    }
  }
}
