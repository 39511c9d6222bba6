/** Receiving a file part by part, and putting the parts together. */
module Upload {
  import opened Containers

  type Bytes = seq<bv8>

  /** What finalization comes to: wrong number of parts, a part reported missing, a part file that is not there, or
      the stored file. */
  datatype Verdict = PartsInvalid | PartMissing(part: int) | FileMissing | Stored

  datatype Error = PartInvalid | PartSizeInvalid | PartTooBig | DivisionByZero

  /** `total` is given for parts of big files. */
  datatype Request = Request(part: int, data: Bytes, total: Option<int>)

  /** The record of an upload: the number of parts announced when it began, if positive, and the size of each part
      received; and the files the parts are in, the first one under number 0. */
  datatype State = State(begun: bool, total: int, sizes: map<int, nat>, files: map<nat, Bytes>)

  const INITIAL := State(false, 0, map[], map[])

  const MAX_PART: nat := 524288

  /** Opening an existing file for update overwrites from its start and keeps what lies beyond. */
  function Overwrite(file: Bytes, data: Bytes): Bytes {
    if |file| > |data| then data + file[|data|..] else data
  }

  /** Only parts above the first have names of their own. */
  function FileOf(part: int): nat {
    if part > 0 then part else 0
  }

  function Saved(files: map<nat, Bytes>, part: int, data: Bytes): map<nat, Bytes> {
    var name := FileOf(part);
    files[name := Overwrite(if name in files then files[name] else [], data)]
  }

  predicate MaybeLast(size: nat)
    requires size > 0
  {
    size % 1024 != 0 || MAX_PART % size != 0
  }

  function Begin(s: State, q: Request): State {
    if s.begun then s else s.(begun := true, total := if q.total.Some? then q.total.value else 0)
  }

  /** What is wrong with a part, if anything; `None` also for a part that is there already. */
  function Refusal(s: State, q: Request): Option<Error> {
    var size := |q.data|;
    if s.total > 0 && (q.total != Some(s.total) || q.part >= s.total) then Some(PartInvalid)
    else if q.part in s.sizes then if size == s.sizes[q.part] then None else Some(PartInvalid)
    else if size == 0 then Some(DivisionByZero)
    else if MaybeLast(size) && exists p :: p in s.sizes && p >= q.part then Some(PartSizeInvalid)
    else if size > MAX_PART then Some(PartTooBig)
    else None
  }

  predicate Accepts(s: State, q: Request) {
    Refusal(Begin(s, q), q).None? && q.part !in s.sizes
  }

  function Next(s: State, q: Request): State {
    var t := Begin(s, q);
    if Accepts(s, q) then t.(sizes := t.sizes[q.part := |q.data|], files := Saved(t.files, q.part, q.data)) else t
  }

  function Run(qs: seq<Request>): State {
    if qs == [] then INITIAL else Next(Run(qs[..|qs| - 1]), qs[|qs| - 1])
  }

  // ----- the handler and the store, as they change them

  class Uploading {
    var begun: bool
    var total: int
    var sizes: map<int, nat>
    var files: map<nat, Bytes>
    var stored: Option<Bytes>

    ghost function Now(): State
      reads this
    {
      State(begun, total, sizes, files)
    }

    constructor ()
      ensures Now() == INITIAL && stored == None
    {
      begun, total, sizes, files, stored := false, 0, map[], map[], None;
    }

    method SavePart(part: int, data: Bytes)
      modifies `files
      ensures files == Saved(old(files), part, data)
    {
      var name := if part > 0 then part else 0;
      if name !in files {
        files := files[name := []];
      }
      var file := files[name];
      files := files[name := if |file| > |data| then data + file[|data|..] else data];
    }

    method SaveFilePart(q: Request) returns (error: Option<Error>)
      modifies `begun, `total, `sizes, `files
      ensures Now() == Next(old(Now()), q)
      ensures error == Refusal(Begin(old(Now()), q), q)
    {
      if !begun {
        begun, total := true, if q.total.Some? then q.total.value else 0;
      }
      var later := exists p :: p in sizes && p >= q.part;
      if total > 0 && q.total.None? {
        return Some(PartInvalid);
      }
      if total > 0 && (q.total != Some(total) || q.part >= total) {
        return Some(PartInvalid);
      }
      var size := |q.data|;
      if q.part in sizes {
        return if size == sizes[q.part] then None else Some(PartInvalid);
      }
      if size == 0 {
        return Some(DivisionByZero);
      }
      var maybeLast := size % 1024 != 0 || MAX_PART % size != 0;
      if maybeLast && later {
        return Some(PartSizeInvalid);
      }
      if size > MAX_PART {
        return Some(PartTooBig);
      }
      sizes := sizes[q.part := size];
      SavePart(q.part, q.data);
      return None;
    }

    /** Checks the records, given by part number, and has the files put together. */
    method FinalizeUpload(partsNum: Option<int>, parts: seq<int>) returns (v: Verdict)
      requires InOrder(parts, sizes)
      modifies `files, `stored
      ensures Complaint(total, parts, partsNum).Some? ==>
        v == Complaint(total, parts, partsNum).value && files == old(files) && stored == old(stored)
      ensures Complaint(total, parts, partsNum).None? ==> (v == Stored || v == FileMissing)
      ensures v == FileMissing ==> exists p: nat :: p < |parts| && p !in old(files)
      ensures v == Stored ==> stored == Some(Joined(old(files), |parts|))
      ensures v == Stored ==> files == map p | p in old(files) && p >= |parts| :: old(files)[p]
    {
      if (total > 0 && total != |parts|) || parts == [] {
        return PartsInvalid;
      }
      if partsNum.Some? && partsNum.value != |parts| {
        return PartsInvalid;
      }
      if parts[0] != 0 {
        return PartMissing(0);
      }
      for idx := 1 to |parts|
        invariant Skip(parts, 1) == Skip(parts, idx)
      {
        if parts[idx] - 1 != parts[idx - 1] {
          return PartMissing(parts[idx] - 1);
        }
      }
      var ok := FinalizeUploadAs(|parts|);
      return if ok then Stored else FileMissing;
    }

    /** Moves the first file and appends the others to it, removing them; a missing file stops it. */
    method FinalizeUploadAs(partsNum: nat) returns (ok: bool)
      modifies `files, `stored
      ensures ok <==> 0 in old(files) && forall p :: 1 <= p < partsNum ==> p in old(files)
      ensures ok ==> stored == Some(Joined(old(files), AtLeastOne(partsNum)))
      ensures ok ==> files == map p | p in old(files) && p >= AtLeastOne(partsNum) :: old(files)[p]
    {
      if 0 !in files {
        return false;
      }
      stored := Some(files[0]);
      files := files - {0};
      assert Joined(old(files), 0) == [] && Joined(old(files), 1) == old(files)[0];
      if partsNum <= 1 {
        assert files == map p | p in old(files) && p >= 1 :: old(files)[p];
        return true;
      }
      for p := 1 to partsNum
        invariant stored.Some? && stored.value == Joined(old(files), p)
        invariant forall i :: 1 <= i < p ==> i in old(files)
        invariant files == map i | i in old(files) && i >= p :: old(files)[i]
      {
        if p !in files {
          return false;
        }
        stored := Some(stored.value + files[p]);
        files := files - {p};
      }
      return true;
    }
  }

  // ----- the records at finalization

  /** The parts on record, by number. */
  ghost predicate InOrder(parts: seq<int>, sizes: map<int, nat>) {
    && (forall i, j :: 0 <= i < j < |parts| ==> parts[i] < parts[j])
    && (forall p :: p in parts <==> p in sizes)
  }

  /** The first place from `i` on where the part numbers skip one. */
  function Skip(parts: seq<int>, i: nat): (r: nat)
    requires 0 < i <= |parts|
    ensures i <= r <= |parts|
    ensures r < |parts| ==> parts[r] - 1 != parts[r - 1]
    ensures forall k :: i <= k < r ==> parts[k] - 1 == parts[k - 1]
    decreases |parts| - i
  {
    if i == |parts| || parts[i] - 1 != parts[i - 1] then i else Skip(parts, i + 1)
  }

  /** Why the records do not make a file, if they do not; `partsNum` is the number the client gives, if any. */
  function Complaint(total: int, parts: seq<int>, partsNum: Option<int>): Option<Verdict> {
    if (total > 0 && total != |parts|) || parts == [] || (partsNum.Some? && partsNum.value != |parts|)
      then Some(PartsInvalid)
    else if parts[0] != 0 then Some(PartMissing(0))
    else if Skip(parts, 1) < |parts| then Some(PartMissing(parts[Skip(parts, 1)] - 1))
    else None
  }

  ghost predicate Numbered(sizes: map<int, nat>, n: nat) {
    forall p :: p in sizes <==> 0 <= p < n
  }

  lemma {:induction false} Consecutive(parts: seq<int>, i: nat)
    requires i < |parts| && parts[0] == 0 && forall k :: 1 <= k < |parts| ==> parts[k] - 1 == parts[k - 1]
    ensures parts[i] == i
  {
    if i > 0 {
      Consecutive(parts, i - 1);
    }
  }

  lemma {:induction false} PlacesAreTaken(parts: seq<int>, n: nat, i: nat)
    requires i <= n && (forall i, j :: 0 <= i < j < |parts| ==> parts[i] < parts[j])
    requires forall p :: p in parts <==> 0 <= p < n
    ensures i <= |parts| && forall k :: 0 <= k < i ==> parts[k] == k
  {
    if i > 0 {
      PlacesAreTaken(parts, n, i - 1);
      assert i - 1 in parts;
      var k :| 0 <= k < |parts| && parts[k] == i - 1;
      assert k >= i - 1;
      assert parts[i - 1] in parts && parts[i - 1] <= parts[k];
      assert i > 1 ==> parts[i - 2] < parts[i - 1];
    }
  }

  /** The records pass exactly when they are parts 0 to n for some n that agrees with the numbers given. */
  lemma RecordsPassExactly(total: int, sizes: map<int, nat>, parts: seq<int>, partsNum: Option<int>)
    requires InOrder(parts, sizes)
    ensures Complaint(total, parts, partsNum).None? <==>
      && |parts| > 0 && Numbered(sizes, |parts|)
      && (total > 0 ==> total == |parts|) && (partsNum.Some? ==> partsNum.value == |parts|)
  {
    if Complaint(total, parts, partsNum).None? {
      forall i | 0 <= i < |parts| ensures parts[i] == i {
        Consecutive(parts, i);
      }
      forall p ensures p in sizes <==> 0 <= p < |parts| {
        if 0 <= p < |parts| {
          assert parts[p] in parts;
        }
      }
    }
    if |parts| > 0 && Numbered(sizes, |parts|) {
      PlacesAreTaken(parts, |parts|, |parts|);
    }
  }

  /** The parts on record go from 0 up to a gap that ends with `p`. */
  ghost predicate GapEndsAt(sizes: map<int, nat>, p: int) {
    p + 1 in sizes && exists m :: 1 <= m <= p && OnlyBelow(sizes, p, m)
  }

  ghost predicate OnlyBelow(sizes: map<int, nat>, p: int, m: int) {
    forall q :: q <= p ==> (q in sizes <==> 0 <= q < m)
  }

  lemma {:induction false} CountUp(parts: seq<int>, r: nat, i: nat)
    requires i < r <= |parts| && parts[0] == 0 && forall k :: 1 <= k < r ==> parts[k] - 1 == parts[k - 1]
    ensures parts[i] == i
  {
    if i > 0 {
      CountUp(parts, r, i - 1);
    }
  }

  lemma GapIsReported(sizes: map<int, nat>, parts: seq<int>, r: nat)
    requires InOrder(parts, sizes) && 1 <= r < |parts| && parts[0] == 0
    requires parts[r] - 1 != parts[r - 1] && forall k :: 1 <= k < r ==> parts[k] - 1 == parts[k - 1]
    ensures GapEndsAt(sizes, parts[r] - 1)
  {
    var p := parts[r] - 1;
    forall i | 0 <= i < r ensures parts[i] == i {
      CountUp(parts, r, i);
    }
    assert parts[r] in parts && parts[r - 1] < parts[r];
    forall q | q <= p ensures q in sizes <==> 0 <= q < r {
      if 0 <= q < r {
        assert parts[q] in parts;
      }
      if q in parts {
        var i :| 0 <= i < |parts| && parts[i] == q;
        assert i > r ==> parts[r] < parts[i];
      }
    }
    assert p + 1 in sizes && OnlyBelow(sizes, p, r);
  }

  /** Records of the right number that do not pass are said to miss the first part, or the part right before the first
      one behind a gap. */
  lemma MissingExactly(total: int, sizes: map<int, nat>, parts: seq<int>, partsNum: Option<int>)
    requires InOrder(parts, sizes)
    ensures var r := Complaint(total, parts, partsNum);
      && (r == Some(PartsInvalid) <==>
            parts == [] || (total > 0 && total != |parts|) || (partsNum.Some? && partsNum.value != |parts|))
      && (r.Some? && r != Some(PartsInvalid) ==>
            r.value.PartMissing? && if parts[0] != 0 then r.value.part == 0 else GapEndsAt(sizes, r.value.part))
  {
    if parts != [] && parts[0] == 0 && Skip(parts, 1) < |parts| {
      GapIsReported(sizes, parts, Skip(parts, 1));
    }
  }

  function AtLeastOne(n: nat): nat {
    if n == 0 then 1 else n
  }

  /** The first `n` files, one behind the other. */
  function Joined(files: map<nat, Bytes>, n: nat): Bytes {
    if n == 0 then [] else Joined(files, n - 1) + if n - 1 in files then files[n - 1] else []
  }

  // ----- what the stored file is

  /** The data of the first accepted request for a part. */
  function FirstAccepted(qs: seq<Request>, part: int): Option<Bytes> {
    if qs == [] then None
    else
      var before := qs[..|qs| - 1];
      if FirstAccepted(before, part).Some? then FirstAccepted(before, part)
      else if qs[|qs| - 1].part == part && Accepts(Run(before), qs[|qs| - 1]) then Some(qs[|qs| - 1].data)
      else None
  }

  lemma RecordsGrow(qs: seq<Request>, q: Request, p: int)
    requires p in Run(qs).sizes
    ensures p in Run(qs + [q]).sizes
  {
    assert (qs + [q])[..|qs|] == qs;
  }

  lemma {:induction false} RecordsStay(qs: seq<Request>, more: seq<Request>, p: int)
    requires p in Run(qs).sizes
    ensures p in Run(qs + more).sizes
    decreases |more|
  {
    if more == [] {
      assert qs + more == qs;
    } else {
      var n := |more| - 1;
      RecordsStay(qs, more[..n], p);
      RecordsGrow(qs + more[..n], more[n], p);
      assert qs + more[..n] + [more[n]] == qs + more;
    }
  }

  /** As long as no negative part was accepted, each file is the first accepted data of its part. */
  ghost predicate FilesRight(s: State, qs: seq<Request>) {
    && (forall p :: p in s.sizes <==> FirstAccepted(qs, p).Some?)
    && ((forall p :: p in s.sizes ==> p >= 0) ==>
          && (forall p: nat :: p in s.files <==> p in s.sizes)
          && (forall p: nat :: p in s.files ==> FirstAccepted(qs, p) == Some(s.files[p])))
  }

  lemma FirstAcceptedNext(qs: seq<Request>, q: Request, p: int)
    ensures FirstAccepted(qs + [q], p) ==
      if FirstAccepted(qs, p).None? && q.part == p && Accepts(Run(qs), q) then Some(q.data) else FirstAccepted(qs, p)
  {
    assert (qs + [q])[..|qs|] == qs;
  }

  /** What accepting a part does to the records and, if it is new and natural, to the files. */
  lemma AcceptedFile(s: State, q: Request)
    requires Accepts(s, q)
    ensures Next(s, q).sizes.Keys == s.sizes.Keys + {q.part}
    ensures q.part >= 0 && q.part !in s.files ==> Next(s, q).files == s.files[q.part := q.data]
  {
  }

  lemma NotAccepted(s: State, q: Request)
    requires !Accepts(s, q)
    ensures Next(s, q).sizes == s.sizes && Next(s, q).files == s.files
  {
  }

  lemma StepFiles(qs: seq<Request>, q: Request)
    requires FilesRight(Run(qs), qs)
    ensures FilesRight(Run(qs + [q]), qs + [q])
  {
    var s := Run(qs);
    assert (qs + [q])[..|qs|] == qs;
    forall p ensures FirstAccepted(qs + [q], p) ==
      if FirstAccepted(qs, p).None? && q.part == p && Accepts(s, q) then Some(q.data) else FirstAccepted(qs, p)
    {
      FirstAcceptedNext(qs, q, p);
    }
    if Accepts(s, q) {
      AcceptedFile(s, q);
      assert forall p :: p in Next(s, q).sizes <==> p in s.sizes || p == q.part;
    } else {
      NotAccepted(s, q);
    }
  }

  lemma {:induction false} RunFiles(qs: seq<Request>)
    ensures FilesRight(Run(qs), qs)
  {
    if qs != [] {
      var n := |qs| - 1;
      RunFiles(qs[..n]);
      StepFiles(qs[..n], qs[n]);
      assert qs[..n] + [qs[n]] == qs;
    }
  }

  /** The first accepted data of parts 0 to `n`, one behind the other. */
  function Assembled(qs: seq<Request>, n: nat): Bytes {
    if n == 0 then []
    else Assembled(qs, n - 1) + if FirstAccepted(qs, n - 1).Some? then FirstAccepted(qs, n - 1).value else []
  }

  lemma {:induction false} JoinedIsAssembled(qs: seq<Request>, files: map<nat, Bytes>, n: nat)
    requires forall p: nat :: p < n ==> p in files && FirstAccepted(qs, p) == Some(files[p])
    ensures Joined(files, n) == Assembled(qs, n)
  {
    if n > 0 {
      JoinedIsAssembled(qs, files, n - 1);
    }
  }

  /** Whatever requests came, in whatever order and however often repeated: if the parts on record are 0 to `n`, the
      part files are exactly those, and joined they are the first accepted data of each part by number. */
  lemma UploadAssembles(qs: seq<Request>, n: nat)
    requires Numbered(Run(qs).sizes, n)
    ensures forall p: nat :: p in Run(qs).files <==> p < n
    ensures Joined(Run(qs).files, n) == Assembled(qs, n)
  {
    RunFiles(qs);
    forall p: nat | p < n ensures p in Run(qs).files && FirstAccepted(qs, p) == Some(Run(qs).files[p]) {
      assert p in Run(qs).sizes;
    }
    JoinedIsAssembled(qs, Run(qs).files, n);
  }

  /** Finalizing after any requests: it stores a file exactly when the parts on record are numbered from 0 without a
      gap and their number is the one given, and then what it stores is the first accepted data of each part in
      order, with no part file left behind. */
  method FinalizeAfter(u: Uploading, ghost qs: seq<Request>, partsNum: Option<int>, parts: seq<int>)
    returns (v: Verdict)
    requires u.Now() == Run(qs) && InOrder(parts, u.sizes)
    modifies u`files, u`stored
    ensures v == Stored <==>
      && |parts| > 0 && Numbered(u.sizes, |parts|)
      && (u.total > 0 ==> u.total == |parts|) && (partsNum.Some? ==> partsNum.value == |parts|)
    ensures v == Stored ==> u.stored == Some(Assembled(qs, |parts|)) && u.files == map[]
  {
    RecordsPassExactly(u.total, u.sizes, parts, partsNum);
    if Numbered(u.sizes, |parts|) {
      UploadAssembles(qs, |parts|);
    }
    v := u.FinalizeUpload(partsNum, parts);
  }

  /** Part numbers are not checked to be natural, and a negative one is written over the first part's file; but once
      one is accepted, finalization refuses the upload for ever after. */
  lemma NegativePartIsRefused(qs: seq<Request>, more: seq<Request>, p: int, parts: seq<int>, partsNum: Option<int>)
    requires p < 0 && p in Run(qs).sizes && InOrder(parts, Run(qs + more).sizes)
    ensures Complaint(Run(qs + more).total, parts, partsNum).Some?
  {
    RecordsStay(qs, more, p);
    RecordsPassExactly(Run(qs + more).total, Run(qs + more).sizes, parts, partsNum);
  }

  /** A negative part is accepted, and shares the first part's file. */
  lemma NegativePartIsAccepted()
    ensures Accepts(INITIAL, Request(-1, [7, 8, 9], None)) && FileOf(-1) == FileOf(0)
  {
  }

  /** Each of the two overwrites the other from its start. */
  lemma NegativePartMixes()
    ensures Run([Request(-1, [7, 8, 9], None), Request(0, [1], None)]).files == map[0 := [1, 8, 9]]
  {
    var a, b := Request(-1, [7, 8, 9], None), Request(0, [1], None);
    assert [a, b][..1] == [a] && [a][..0] == [];
    assert Run([a]) == Next(Run([a][..0]), a);
    assert Run([a]) == State(true, 0, map[-1 := 3], map[0 := [7, 8, 9]]);
    assert [7 as bv8, 8, 9][1..] == [8, 9] && [1 as bv8] + [8, 9] == [1, 8, 9];
  }

  // ----- what is refused, and that an ordinary upload is not

  /** A size that only the last part need not have. */
  predicate Even(size: nat) {
    size > 0 && size % 1024 == 0 && 524288 % size == 0
  }

  /** A part is refused if and only if it disagrees with the number announced; or it comes again with another size; or
      it is new and empty, above 512 kilobytes, or of a size that only the last part may have while a part with its
      number or above is on record. */
  lemma RefusedExactly(s: State, q: Request)
    ensures var r, size := Refusal(s, q), |q.data|;
      && (s.total > 0 && !(q.total == Some(s.total) && q.part < s.total) ==> r == Some(PartInvalid))
      && (!(s.total > 0 && !(q.total == Some(s.total) && q.part < s.total)) ==>
            && (q.part in s.sizes ==> r == if size == s.sizes[q.part] then None else Some(PartInvalid))
            && (q.part !in s.sizes ==>
                  && (r == Some(DivisionByZero) <==> size == 0)
                  && (r == Some(PartSizeInvalid) <==>
                        size > 0 && !Even(size) && exists p :: p in s.sizes && p >= q.part)
                  && (r == None ==> size <= 524288)
                  && (0 < size <= 524288 && (Even(size) || forall p :: p in s.sizes ==> p < q.part) ==> r == None)))
  {
  }

  /** The parts of a file as clients cut it: all but the last have one of the even sizes. */
  ghost predicate Cut(parts: seq<Bytes>) {
    && parts != [] && 0 < |parts[|parts| - 1]| <= 524288
    && forall i :: 0 <= i < |parts| - 1 ==> Even(|parts[i]|)
  }

  predicate IsPart(q: Request, parts: seq<Bytes>, total: Option<int>) {
    0 <= q.part < |parts| && q.data == parts[q.part] && q.total == total
  }

  /** These requests send parts of one file, in any order, some perhaps more than once. */
  ghost predicate Ordinary(qs: seq<Request>, parts: seq<Bytes>, total: Option<int>) {
    && Cut(parts) && (total.Some? ==> total.value == |parts|)
    && forall k :: 0 <= k < |qs| ==> IsPart(qs[k], parts, total)
  }

  ghost predicate Came(qs: seq<Request>, p: int) {
    exists k :: 0 <= k < |qs| && qs[k].part == p
  }

  ghost predicate OnlyParts(s: State, parts: seq<Bytes>, total: Option<int>) {
    && (s.begun ==> s.total == if total.Some? then total.value else 0) && (!s.begun ==> s.total == 0)
    && forall p :: p in s.sizes ==> 0 <= p < |parts| && s.sizes[p] == |parts[p]|
  }

  lemma OrdinaryPasses(s: State, q: Request, parts: seq<Bytes>, total: Option<int>)
    requires OnlyParts(s, parts, total) && Cut(parts) && (total.Some? ==> total.value == |parts|)
    requires IsPart(q, parts, total)
    ensures Refusal(Begin(s, q), q).None? && OnlyParts(Next(s, q), parts, total)
    ensures q.part in Next(s, q).sizes
  {
    var t := Begin(s, q);
    RefusedExactly(t, q);
    EvenIsSmall(|q.data|);
  }

  lemma EvenIsSmall(size: nat)
    ensures Even(size) ==> size <= 524288
  {
  }

  lemma {:induction false} OrdinaryRun(qs: seq<Request>, parts: seq<Bytes>, total: Option<int>)
    requires Ordinary(qs, parts, total)
    ensures OnlyParts(Run(qs), parts, total)
    ensures forall p :: p in Run(qs).sizes <==> Came(qs, p)
  {
    if qs != [] {
      var n := |qs| - 1;
      OrdinaryRun(qs[..n], parts, total);
      OrdinaryPasses(Run(qs[..n]), qs[n], parts, total);
      StepRecords(Run(qs[..n]), qs[n]);
      assert qs == qs[..n] + [qs[n]];
    }
  }

  lemma StepRecords(s: State, q: Request)
    ensures s.sizes.Keys <= Next(s, q).sizes.Keys <= s.sizes.Keys + {q.part}
  {
  }

  lemma {:induction false} AcceptedIsPart(qs: seq<Request>, parts: seq<Bytes>, total: Option<int>, p: nat)
    requires Ordinary(qs, parts, total) && FirstAccepted(qs, p).Some?
    ensures p < |parts| && FirstAccepted(qs, p) == Some(parts[p])
  {
    var n := |qs| - 1;
    if FirstAccepted(qs[..n], p).Some? {
      AcceptedIsPart(qs[..n], parts, total, p);
    }
  }

  function Concatenated(parts: seq<Bytes>): Bytes {
    if parts == [] then [] else Concatenated(parts[..|parts| - 1]) + parts[|parts| - 1]
  }

  lemma {:induction false} AssembledIsWhole(qs: seq<Request>, parts: seq<Bytes>, n: nat)
    requires n <= |parts| && forall p: nat :: p < n ==> FirstAccepted(qs, p) == Some(parts[p])
    ensures Assembled(qs, n) == Concatenated(parts[..n])
  {
    if n > 0 {
      AssembledIsWhole(qs, parts, n - 1);
      assert parts[..n][..n - 1] == parts[..n - 1];
    }
  }

  lemma OrdinaryAssembles(qs: seq<Request>, parts: seq<Bytes>, total: Option<int>)
    requires Ordinary(qs, parts, total) && Numbered(Run(qs).sizes, |parts|)
    ensures Joined(Run(qs).files, |parts|) == Concatenated(parts)
  {
    UploadAssembles(qs, |parts|);
    RunFiles(qs);
    forall p: nat | p < |parts| ensures FirstAccepted(qs, p) == Some(parts[p]) {
      assert p in Run(qs).sizes;
      AcceptedIsPart(qs, parts, total, p);
    }
    AssembledIsWhole(qs, parts, |parts|);
    assert parts[..|parts|] == parts;
  }

  lemma OrdinaryPart(qs: seq<Request>, parts: seq<Bytes>, total: Option<int>, k: nat)
    requires Ordinary(qs, parts, total) && k < |qs|
    ensures Refusal(Begin(Run(qs[..k]), qs[k]), qs[k]).None?
  {
    OrdinaryRun(qs[..k], parts, total);
    OrdinaryPasses(Run(qs[..k]), qs[k], parts, total);
  }

  /** No part of an ordinary upload is refused, in whatever order the parts come and however often; and once all have
      come, the files joined by number are the whole file. */
  lemma OrdinaryUpload(qs: seq<Request>, parts: seq<Bytes>, total: Option<int>)
    requires Ordinary(qs, parts, total)
    ensures forall k :: 0 <= k < |qs| ==> Refusal(Begin(Run(qs[..k]), qs[k]), qs[k]).None?
    ensures (forall p :: 0 <= p < |parts| ==> Came(qs, p)) ==>
      Numbered(Run(qs).sizes, |parts|) && Joined(Run(qs).files, |parts|) == Concatenated(parts)
  {
    forall k | 0 <= k < |qs| ensures Refusal(Begin(Run(qs[..k]), qs[k]), qs[k]).None? {
      OrdinaryPart(qs, parts, total, k);
    }
    OrdinaryRun(qs, parts, total);
    if forall p :: 0 <= p < |parts| ==> Came(qs, p) {
      OrdinaryAssembles(qs, parts, total);
    }
  }
}
