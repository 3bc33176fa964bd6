/** The cache of precompiled components.  Any number of downloads race, writing
    temporary files piecemeal and renaming them into place; the process may
    crash between any two steps, leaving its files behind; and a sweep may
    delete any file at any time.  A run is any sequence of such steps, and an
    impossible step changes nothing. */
module CwasmCache {
  import opened Text
  import opened Common

  // ------------------------------------------------------------ file names

  const HEX := "0123456789abcdef"

  function Hex(digest: seq<Byte>): string {
    if digest == [] then ""
    else
      var b := digest[|digest| - 1];
      Hex(digest[..|digest| - 1]) + [HEX[b / 16], HEX[b % 16]]
  }

  method CacheKey(digest: seq<Byte>) returns (hex: string)
    ensures hex == Hex(digest)
  {
    hex := "";
    for i := 0 to |digest|
      invariant hex == Hex(digest[..i])
    {
      assert digest[..i + 1][..i] == digest[..i];
      hex := hex + [HEX[digest[i] / 16], HEX[digest[i] % 16]];
    }
    assert digest[..|digest|] == digest;
  }

  lemma HexDigits(b: Byte, c: Byte)
    requires HEX[b / 16] == HEX[c / 16] && HEX[b % 16] == HEX[c % 16]
    ensures b == c
  {
    assert forall i, j | 0 <= i < 16 && 0 <= j < 16 :: HEX[i] == HEX[j] ==> i == j;
  }

  /** A digest's hex ends in the digits of its last byte. */
  lemma HexEnds(d: seq<Byte>, m: nat)
    requires |d| == m + 1
    ensures |Hex(d)| == 2 * m + 2 && Hex(d)[..2 * m] == Hex(d[..m])
    ensures Hex(d)[2 * m] == HEX[d[m] / 16] && Hex(d)[2 * m + 1] == HEX[d[m] % 16]
  {
    HexLength(d[..m]);
  }

  lemma {:induction false} HexIsInjective(a: seq<Byte>, b: seq<Byte>)
    requires Hex(a) == Hex(b)
    ensures a == b
  {
    HexLength(a);
    HexLength(b);
    if a != [] {
      var m := |a| - 1;
      HexEnds(a, m);
      HexEnds(b, m);
      HexDigits(a[m], b[m]);
      HexIsInjective(a[..m], b[..m]);
      assert a == a[..m] + [a[m]] && b == b[..m] + [b[m]];
    }
  }

  lemma {:induction false} HexLength(digest: seq<Byte>)
    ensures |Hex(digest)| == 2 * |digest|
    ensures forall c | c in Hex(digest) :: c in HEX
  {
    if digest != [] {
      HexLength(digest[..|digest| - 1]);
    }
  }

  /** Where a URL's component lives, and the names its downloads write to first. */
  function FinalPath(digest: seq<Byte>): string {
    Hex(digest) + ".cwasm"
  }

  function TempPath(digest: seq<Byte>, uuid: string): string {
    "." + Hex(digest) + "." + uuid + ".tmp"
  }

  lemma TempIsNeverFinal(d: seq<Byte>, uuid: string, e: seq<Byte>)
    ensures TempPath(d, uuid) != FinalPath(e)
  {
    var t, f := TempPath(d, uuid), FinalPath(e);
    assert t[|t| - 1] == 'p' && f[|f| - 1] == 'm';
  }

  lemma FinalIsInjective(d: seq<Byte>, e: seq<Byte>)
    requires FinalPath(d) == FinalPath(e)
    ensures d == e
  {
    var f := FinalPath(d);
    assert Hex(d) == f[..|f| - 6] == Hex(e);
    HexIsInjective(d, e);
  }

  lemma FirstDot(d: seq<Byte>, uuid: string)
    ensures forall k | 0 < k <= |Hex(d)| :: TempPath(d, uuid)[k] != '.'
    ensures TempPath(d, uuid)[1 + |Hex(d)|] == '.'
  {
    HexLength(d);
    forall k | 0 < k <= |Hex(d)| ensures TempPath(d, uuid)[k] != '.' {
      assert TempPath(d, uuid)[k] == Hex(d)[k - 1] && Hex(d)[k - 1] in Hex(d);
    }
  }

  lemma TempIsInjective(d: seq<Byte>, uuid: string, e: seq<Byte>, vuid: string)
    requires TempPath(d, uuid) == TempPath(e, vuid)
    ensures uuid == vuid
  {
    var t, m := TempPath(d, uuid), |Hex(d)|;
    FirstDot(d, uuid);
    FirstDot(e, vuid);
    assert |Hex(e)| == m;
    assert t[2 + m..|t| - 4] == uuid && t[2 + m..|t| - 4] == vuid;
  }

  // ------------------------------------------------------------ the machine

  /** The precompiled URLs in play: what a fetch of each gives, and its digest. */
  datatype Origin = Origin(content: map<string, seq<Byte>>, digest: map<string, seq<Byte>>)

  predicate Valid(o: Origin) {
    o.content.Keys == o.digest.Keys
  }

  /** URLs that share a digest share their bytes. */
  ghost predicate NoClash(o: Origin)
    requires Valid(o)
  {
    forall u, v | u in o.content && v in o.content && o.digest[u] == o.digest[v] :: o.content[u] == o.content[v]
  }

  datatype Outcome = Ok(path: string) | Err

  datatype Phase =
    | Called
    | Missed
    | Fetched(bytes: seq<Byte>)
    | Ready(bytes: seq<Byte>)                       // the directory exists
    | Writing(tmp: string, bytes: seq<Byte>, written: nat)
    | NotMoved(tmp: string)
    | Returned(outcome: Outcome)

  datatype Call = Call(url: string, phase: Phase)

  /** `uuids` have named temporary files already, before or after a crash. */
  datatype State = State(files: map<string, seq<Byte>>, calls: map<nat, Call>, uuids: set<string>)

  datatype Action =
    | Begin(c: nat, url: string)
    | Look(c: nat, ok: bool)                        // a failing look counts as a miss
    | Fetch(c: nat, ok: bool)
    | MakeDir(c: nat, ok: bool)
    | Create(c: nat, uuid: string, ok: bool)
    | Write(c: nat, n: nat, ok: bool)               // n more bytes reach the file
    | Rename(c: nat, ok: bool)
    | RemoveTemp(c: nat, ok: bool)
    | Sweep(path: string)
    | Crash

  function SetPhase(s: State, c: nat, phase: Phase): State
    requires c in s.calls
  {
    s.(calls := s.calls[c := s.calls[c].(phase := phase)])
  }

  function PathOf(o: Origin, url: string): string
    requires Valid(o) && url in o.content
  {
    FinalPath(o.digest[url])
  }

  /** One step of the download running as call `c`. */
  function CallStep(o: Origin, s: State, a: Action, c: nat): State
    requires Valid(o) && c in s.calls && s.calls[c].url in o.content
  {
    var url := s.calls[c].url;
    var path := PathOf(o, url);
    match (a, s.calls[c].phase)
    case (Look(_, ok), Called) =>
      SetPhase(s, c, if ok && path in s.files then Returned(Ok(path)) else Missed)
    case (Fetch(_, ok), Missed) =>
      SetPhase(s, c, if ok then Fetched(o.content[url]) else Returned(Err))
    case (MakeDir(_, ok), Fetched(bytes)) =>
      SetPhase(s, c, if ok then Ready(bytes) else Returned(Err))
    case (Create(_, uuid, ok), Ready(bytes)) =>
      if uuid in s.uuids then s
      else if !ok then SetPhase(s, c, Returned(Err))
      else
        var tmp := TempPath(o.digest[url], uuid);
        SetPhase(s.(files := s.files[tmp := []], uuids := s.uuids + {uuid}), c, Writing(tmp, bytes, 0))
    case (Write(_, n, ok), Writing(tmp, bytes, written)) =>
      if !ok then SetPhase(s, c, Returned(Err))
      else
        var upto := Min(written + n, |bytes|);
        // a swept file stays gone: the bytes go to the unlinked one
        SetPhase(if tmp in s.files then s.(files := s.files[tmp := bytes[..upto]]) else s,
                 c, Writing(tmp, bytes, upto))
    case (Rename(_, ok), Writing(tmp, bytes, written)) =>
      if written != |bytes| then s
      else if ok && tmp in s.files then
        SetPhase(s.(files := (s.files - {tmp})[path := s.files[tmp]]), c, Returned(Ok(path)))
      else SetPhase(s, c, NotMoved(tmp))
    case (RemoveTemp(_, ok), NotMoved(tmp)) =>
      SetPhase(if ok then s.(files := s.files - {tmp}) else s, c, Returned(Err))
    case _ => s
  }

  function Next(o: Origin, s: State, a: Action): State
    requires Valid(o)
  {
    match a
    case Begin(c, url) =>
      if c in s.calls || url !in o.content then s else s.(calls := s.calls[c := Call(url, Called)])
    case Sweep(path) => s.(files := s.files - {path})
    case Crash => s.(calls := map[])
    case _ =>
      if a.c in s.calls && s.calls[a.c].url in o.content then CallStep(o, s, a, a.c) else s
  }

  function Run(o: Origin, actions: seq<Action>): State
    requires Valid(o)
  {
    if actions == [] then State(map[], map[], {})
    else Next(o, Run(o, actions[..|actions| - 1]), actions[|actions| - 1])
  }

  // ------------------------------------------------------------ the invariant

  /** A file under a URL's own name is that URL's component, whole. */
  predicate Holds(o: Origin, files: map<string, seq<Byte>>, url: string)
    requires Valid(o) && url in o.content
  {
    PathOf(o, url) in files ==> files[PathOf(o, url)] == o.content[url]
  }

  ghost predicate IsTemp(o: Origin, uuids: set<string>, url: string, tmp: string)
    requires Valid(o) && url in o.content
  {
    exists uuid :: uuid in uuids && tmp == TempPath(o.digest[url], uuid)
  }

  /** What a download holds in its hands, and in its temporary file. */
  ghost predicate CallOk(o: Origin, s: State, call: Call)
    requires Valid(o)
  {
    && call.url in o.content
    && match call.phase
       case Fetched(bytes) => bytes == o.content[call.url]
       case Ready(bytes) => bytes == o.content[call.url]
       case Writing(tmp, bytes, written) =>
         && bytes == o.content[call.url]
         && written <= |bytes|
         && IsTemp(o, s.uuids, call.url, tmp)
         && (tmp in s.files ==> s.files[tmp] == bytes[..written])
       case NotMoved(tmp) => IsTemp(o, s.uuids, call.url, tmp)
       case Returned(Ok(path)) => path == PathOf(o, call.url)
       case _ => true
  }

  /** The temporary file a call is using, if any. */
  function TempOf(call: Call): Option<string> {
    match call.phase
    case Writing(tmp, _, _) => Some(tmp)
    case NotMoved(tmp) => Some(tmp)
    case _ => None
  }

  predicate Apart(a: Call, b: Call) {
    TempOf(a).Some? ==> TempOf(a) != TempOf(b)
  }

  ghost predicate Inv(o: Origin, s: State)
    requires Valid(o)
  {
    && (forall url | url in o.content :: Holds(o, s.files, url))
    && (forall c | c in s.calls :: CallOk(o, s, s.calls[c]))
    && (forall c, d | c in s.calls && d in s.calls && c != d :: Apart(s.calls[c], s.calls[d]))
  }

  lemma TempsAreNotFinal(o: Origin, uuids: set<string>, url: string, tmp: string, other: string)
    requires Valid(o) && url in o.content && other in o.content && IsTemp(o, uuids, url, tmp)
    ensures tmp != PathOf(o, other)
  {
    var uuid :| uuid in uuids && tmp == TempPath(o.digest[url], uuid);
    TempIsNeverFinal(o.digest[url], uuid, o.digest[other]);
  }

  lemma TempsAreOld(o: Origin, uuids: set<string>, url: string, tmp: string, other: string, fresh': string)
    requires Valid(o) && url in o.content && other in o.content && IsTemp(o, uuids, url, tmp)
    requires fresh' !in uuids
    ensures tmp != TempPath(o.digest[other], fresh')
  {
    var uuid :| uuid in uuids && tmp == TempPath(o.digest[url], uuid);
    if tmp == TempPath(o.digest[other], fresh') {
      TempIsInjective(o.digest[url], uuid, o.digest[other], fresh');
    }
  }

  /** No step but a finished download's rename writes under a URL's own name. */
  lemma StepKeepsHolds(o: Origin, s: State, a: Action, c: nat, url: string)
    requires Valid(o) && NoClash(o) && c in s.calls && url in o.content
    requires CallOk(o, s, s.calls[c]) && Holds(o, s.files, url)
    ensures Holds(o, CallStep(o, s, a, c).files, url)
  {
    var call := s.calls[c];
    if a.Create? {
      TempIsNeverFinal(o.digest[call.url], a.uuid, o.digest[url]);
    }
    if call.phase.Writing? {
      TempsAreNotFinal(o, s.uuids, call.url, call.phase.tmp, url);
      assert call.phase.bytes[..|call.phase.bytes|] == call.phase.bytes;
      if PathOf(o, url) == PathOf(o, call.url) {
        FinalIsInjective(o.digest[url], o.digest[call.url]);
      }
    }
  }

  lemma StepKeepsOwn(o: Origin, s: State, a: Action, c: nat)
    requires Valid(o) && c in s.calls && CallOk(o, s, s.calls[c])
    ensures CallOk(o, CallStep(o, s, a, c), CallStep(o, s, a, c).calls[c])
  {
    var t := CallStep(o, s, a, c);
    if a.Create? && t.calls[c].phase.Writing? {
      assert a.uuid in t.uuids ==> IsTemp(o, t.uuids, s.calls[c].url, TempPath(o.digest[s.calls[c].url], a.uuid));
    }
  }

  lemma StepKeepsOthers(o: Origin, s: State, a: Action, c: nat, d: nat)
    requires Valid(o) && c in s.calls && d in s.calls && c != d
    requires CallOk(o, s, s.calls[c]) && CallOk(o, s, s.calls[d]) && Apart(s.calls[c], s.calls[d])
    ensures var t := CallStep(o, s, a, c); d in t.calls && t.calls[d] == s.calls[d] && CallOk(o, t, t.calls[d])
    ensures Apart(CallStep(o, s, a, c).calls[c], s.calls[d])
    ensures Apart(s.calls[d], CallStep(o, s, a, c).calls[c])
  {
    var t := CallStep(o, s, a, c);
    var mine, theirs := s.calls[c], s.calls[d];
    assert t.calls[d] == s.calls[d] && s.uuids <= t.uuids;
    if TempOf(theirs).Some? {
      var tmp := TempOf(theirs).value;
      TempsAreNotFinal(o, s.uuids, theirs.url, tmp, mine.url);
      if a.Create? && a.uuid !in s.uuids {
        TempsAreOld(o, s.uuids, theirs.url, tmp, mine.url, a.uuid);
      }
      assert IsTemp(o, t.uuids, theirs.url, tmp);
      assert tmp in t.files ==> tmp in s.files && t.files[tmp] == s.files[tmp];
    }
  }

  /** `t` differs from `s` in call `c` and keeps everything about the others. */
  ghost predicate Others(o: Origin, s: State, t: State, c: nat)
    requires Valid(o) && c in t.calls
  {
    forall d | d in s.calls && d != c ::
      && d in t.calls && t.calls[d] == s.calls[d] && CallOk(o, t, t.calls[d])
      && Apart(t.calls[c], t.calls[d]) && Apart(t.calls[d], t.calls[c])
  }

  lemma InvFromParts(o: Origin, s: State, t: State, c: nat)
    requires Valid(o) && Inv(o, s) && c in s.calls && t.calls.Keys == s.calls.Keys
    requires forall url | url in o.content :: Holds(o, t.files, url)
    requires CallOk(o, t, t.calls[c]) && Others(o, s, t, c)
    ensures Inv(o, t)
  {
    forall d, e | d in t.calls && e in t.calls && d != e ensures Apart(t.calls[d], t.calls[e]) {
      if d != c && e != c {
        assert Apart(s.calls[d], s.calls[e]);
      }
    }
  }

  lemma StepKeepsFiles(o: Origin, s: State, a: Action, c: nat)
    requires Valid(o) && NoClash(o) && Inv(o, s) && c in s.calls
    ensures forall url | url in o.content :: Holds(o, CallStep(o, s, a, c).files, url)
  {
    forall url | url in o.content ensures Holds(o, CallStep(o, s, a, c).files, url) {
      StepKeepsHolds(o, s, a, c, url);
    }
  }

  lemma StepKeepsCalls(o: Origin, s: State, a: Action, c: nat)
    requires Valid(o) && Inv(o, s) && c in s.calls
    ensures CallStep(o, s, a, c).calls.Keys == s.calls.Keys
    ensures Others(o, s, CallStep(o, s, a, c), c)
  {
    forall d | d in s.calls && d != c
      ensures var t := CallStep(o, s, a, c);
              && d in t.calls && t.calls[d] == s.calls[d] && CallOk(o, t, t.calls[d])
              && Apart(t.calls[c], t.calls[d]) && Apart(t.calls[d], t.calls[c])
    {
      StepKeepsOthers(o, s, a, c, d);
    }
  }

  lemma CallStepKeepsInv(o: Origin, s: State, a: Action, c: nat)
    requires Valid(o) && NoClash(o) && Inv(o, s) && c in s.calls
    ensures Inv(o, CallStep(o, s, a, c))
  {
    StepKeepsFiles(o, s, a, c);
    StepKeepsCalls(o, s, a, c);
    StepKeepsOwn(o, s, a, c);
    InvFromParts(o, s, CallStep(o, s, a, c), c);
  }

  lemma BeginKeepsInv(o: Origin, s: State, c: nat, url: string)
    requires Valid(o) && Inv(o, s) && c !in s.calls && url in o.content
    ensures Inv(o, s.(calls := s.calls[c := Call(url, Called)]))
  {
    var t := s.(calls := s.calls[c := Call(url, Called)]);
    forall d | d in t.calls ensures CallOk(o, t, t.calls[d]) {
      if d != c {
        assert CallOk(o, s, s.calls[d]);
      }
    }
    forall d, e | d in t.calls && e in t.calls && d != e ensures Apart(t.calls[d], t.calls[e]) {
      if d != c && e != c {
        assert Apart(s.calls[d], s.calls[e]);
      }
    }
  }

  lemma SweepKeepsInv(o: Origin, s: State, path: string)
    requires Valid(o) && Inv(o, s)
    ensures Inv(o, s.(files := s.files - {path}))
  {
    var t := s.(files := s.files - {path});
    forall url | url in o.content ensures Holds(o, t.files, url) {
      assert Holds(o, s.files, url);
    }
    forall c | c in t.calls ensures CallOk(o, t, t.calls[c]) {
      assert CallOk(o, s, s.calls[c]);
    }
  }

  lemma StepKeepsInv(o: Origin, s: State, a: Action)
    requires Valid(o) && NoClash(o) && Inv(o, s)
    ensures Inv(o, Next(o, s, a))
  {
    match a
    case Begin(c, url) =>
      if c !in s.calls && url in o.content {
        BeginKeepsInv(o, s, c, url);
      }
    case Sweep(path) => SweepKeepsInv(o, s, path);
    case Crash =>
    case _ =>
      if a.c in s.calls {
        CallStepKeepsInv(o, s, a, a.c);
      }
  }

  lemma {:induction false} RunKeepsInv(o: Origin, actions: seq<Action>)
    requires Valid(o) && NoClash(o)
    ensures Inv(o, Run(o, actions))
  {
    if actions != [] {
      RunKeepsInv(o, actions[..|actions| - 1]);
      StepKeepsInv(o, Run(o, actions[..|actions| - 1]), actions[|actions| - 1]);
    }
  }

  // ------------------------------------------------------------- the theorems

  /** Over every run, whatever races, fails, crashes or is swept: a file under a
      URL's own name is never part of a component and never another one. */
  lemma NeverHalfWritten(o: Origin, actions: seq<Action>, url: string)
    requires Valid(o) && NoClash(o) && url in o.content
    ensures Holds(o, Run(o, actions).files, url)
  {
    RunKeepsInv(o, actions);
  }

  /** A file under a URL's own name goes away only by being swept. */
  lemma StepKeepsFinal(o: Origin, s: State, a: Action, url: string)
    requires Valid(o) && NoClash(o) && Inv(o, s) && url in o.content
    requires PathOf(o, url) in s.files && a != Sweep(PathOf(o, url))
    ensures PathOf(o, url) in Next(o, s, a).files
  {
    if !a.Begin? && !a.Sweep? && !a.Crash? && a.c in s.calls {
      var call := s.calls[a.c];
      assert CallOk(o, s, call);
      if TempOf(call).Some? {
        TempsAreNotFinal(o, s.uuids, call.url, TempOf(call).value, url);
      }
    }
  }

  predicate Unswept(actions: seq<Action>, n: nat, path: string) {
    forall i | n <= i < |actions| :: actions[i] != Sweep(path)
  }

  lemma {:induction false} FinalStays(o: Origin, actions: seq<Action>, n: nat, url: string)
    requires Valid(o) && NoClash(o) && url in o.content && n <= |actions|
    requires PathOf(o, url) in Run(o, actions[..n]).files
    requires Unswept(actions, n, PathOf(o, url))
    ensures PathOf(o, url) in Run(o, actions).files
    decreases |actions|
  {
    if n == |actions| {
      assert actions[..n] == actions;
    } else {
      var m := |actions| - 1;
      assert actions[..m][..n] == actions[..n];
      FinalStays(o, actions[..m], n, url);
      LastKeepsFinal(o, actions, url);
    }
  }

  lemma LastKeepsFinal(o: Origin, actions: seq<Action>, url: string)
    requires Valid(o) && NoClash(o) && url in o.content && actions != []
    requires PathOf(o, url) in Run(o, actions[..|actions| - 1]).files
    requires actions[|actions| - 1] != Sweep(PathOf(o, url))
    ensures PathOf(o, url) in Run(o, actions).files
  {
    var m := |actions| - 1;
    RunKeepsInv(o, actions[..m]);
    StepKeepsFinal(o, Run(o, actions[..m]), actions[m], url);
  }

  /** Whether the `n`-th step is the one that tells call `c` it has its file. */
  predicate Answers(o: Origin, actions: seq<Action>, n: nat, c: nat)
    requires Valid(o) && n < |actions|
  {
    var s, t := Run(o, actions[..n]), Run(o, actions[..n + 1]);
    && c in s.calls && !s.calls[c].phase.Returned?
    && c in t.calls && t.calls[c].phase.Returned? && t.calls[c].phase.outcome.Ok?
  }

  lemma StepAnswers(o: Origin, s: State, a: Action, c: nat)
    requires Valid(o) && Inv(o, s) && c in s.calls && !s.calls[c].phase.Returned?
    requires c in Next(o, s, a).calls
    requires Next(o, s, a).calls[c].phase.Returned? && Next(o, s, a).calls[c].phase.outcome.Ok?
    ensures s.calls[c].url in o.content && Next(o, s, a).calls[c].url == s.calls[c].url
    ensures Next(o, s, a).calls[c].phase.outcome.path == PathOf(o, s.calls[c].url)
    ensures PathOf(o, s.calls[c].url) in Next(o, s, a).files
  {
    assert CallOk(o, s, s.calls[c]);
  }

  /** A call that returns Ok names its URL's path, and that file is what fetching
      the URL gives, then and for as long as nobody sweeps it. */
  lemma OkMeansWhole(o: Origin, actions: seq<Action>, n: nat, c: nat)
    requires Valid(o) && NoClash(o) && n < |actions| && Answers(o, actions, n, c)
    ensures var call := Run(o, actions[..n + 1]).calls[c];
            && call.url in o.content
            && call.phase.outcome.path == PathOf(o, call.url)
            && (Unswept(actions, n + 1, call.phase.outcome.path) ==>
                  && call.phase.outcome.path in Run(o, actions).files
                  && Run(o, actions).files[call.phase.outcome.path] == o.content[call.url])
  {
    var call := Run(o, actions[..n + 1]).calls[c];
    assert actions[..n + 1][..n] == actions[..n];
    RunKeepsInv(o, actions[..n]);
    StepAnswers(o, Run(o, actions[..n]), actions[n], c);
    if Unswept(actions, n + 1, PathOf(o, call.url)) {
      FinalStays(o, actions, n + 1, call.url);
      NeverHalfWritten(o, actions, call.url);
    }
  }

  /** What is in the cache is handed back at once and nothing is downloaded; what
      is not, or cannot be looked up, is fetched. */
  lemma CachedIsReused(o: Origin, actions: seq<Action>, c: nat, url: string, ok: bool)
    requires Valid(o) && url in o.content && c !in Run(o, actions).calls
    ensures var s, t := Run(o, actions), Run(o, actions + [Begin(c, url)] + [Look(c, ok)]);
            && t.files == s.files && c in t.calls && t.calls[c].url == url
            && t.calls[c].phase == if ok && PathOf(o, url) in s.files then Returned(Ok(PathOf(o, url))) else Missed
  {
    RunSnoc(o, actions, Begin(c, url));
    RunSnoc(o, actions + [Begin(c, url)], Look(c, ok));
  }

  /** A file that cannot be moved into place is an error, and is not left behind
      unless removing it fails too. */
  lemma FailedMoveCleansUp(o: Origin, s: State, c: nat, removed: bool)
    requires Valid(o) && c in s.calls && s.calls[c].url in o.content && s.calls[c].phase.Writing?
    requires s.calls[c].phase.written == |s.calls[c].phase.bytes|
    ensures var t := Next(o, Next(o, s, Rename(c, false)), RemoveTemp(c, removed));
            && c in t.calls && t.calls[c].phase == Returned(Err)
            && t.files == if removed then s.files - {s.calls[c].phase.tmp} else s.files
  {
  }

  // ------------------------------------------- exactly when the scheme is sound

  /** The run in which one download of `url` meets no obstacle. */
  function Undisturbed(o: Origin, url: string, uuid: string): seq<Action>
    requires url in o.content
  {
    FetchActions(url) + [Create(0, uuid, true)] + [Write(0, |o.content[url]|, true)] + [Rename(0, true)]
  }

  function FetchActions(url: string): seq<Action> {
    [] + [Begin(0, url)] + [Look(0, true)] + [Fetch(0, true)] + [MakeDir(0, true)]
  }

  lemma RunSnoc(o: Origin, actions: seq<Action>, a: Action)
    requires Valid(o)
    ensures Run(o, actions + [a]) == Next(o, Run(o, actions), a)
  {
    assert (actions + [a])[..|actions|] == actions;
  }

  /** The only call there is, with these files. */
  function Alone(files: map<string, seq<Byte>>, url: string, phase: Phase, uuids: set<string>): State {
    State(files, map[0 := Call(url, phase)], uuids)
  }

  lemma UndisturbedFetches(o: Origin, url: string)
    requires Valid(o) && url in o.content
    ensures Run(o, FetchActions(url)) == Alone(map[], url, Ready(o.content[url]), {})
  {
    var a: seq<Action> := [];
    RunSnoc(o, a, Begin(0, url));
    a := a + [Begin(0, url)];
    assert Run(o, a) == Alone(map[], url, Called, {});
    AloneFetches(o, url);
    RunSnoc(o, a, Look(0, true));
    RunSnoc(o, a + [Look(0, true)], Fetch(0, true));
    RunSnoc(o, a + [Look(0, true)] + [Fetch(0, true)], MakeDir(0, true));
  }

  lemma AloneFetches(o: Origin, url: string)
    requires Valid(o) && url in o.content
    ensures Next(o, Alone(map[], url, Called, {}), Look(0, true)) == Alone(map[], url, Missed, {})
    ensures Next(o, Alone(map[], url, Missed, {}), Fetch(0, true)) == Alone(map[], url, Fetched(o.content[url]), {})
    ensures Next(o, Alone(map[], url, Fetched(o.content[url]), {}), MakeDir(0, true))
            == Alone(map[], url, Ready(o.content[url]), {})
  {
  }

  lemma AloneWrites(o: Origin, url: string, uuid: string)
    requires Valid(o) && url in o.content
    ensures var bytes, tmp := o.content[url], TempPath(o.digest[url], uuid);
            && Next(o, Alone(map[], url, Ready(bytes), {}), Create(0, uuid, true))
               == Alone(map[tmp := []], url, Writing(tmp, bytes, 0), {uuid})
            && Next(o, Alone(map[tmp := []], url, Writing(tmp, bytes, 0), {uuid}), Write(0, |bytes|, true))
               == Alone(map[tmp := bytes], url, Writing(tmp, bytes, |bytes|), {uuid})
  {
    assert o.content[url][..|o.content[url]|] == o.content[url];
  }

  lemma AloneMoves(o: Origin, s: State, url: string, tmp: string)
    requires Valid(o) && url in o.content && tmp in s.files && s.files[tmp] == o.content[url]
    requires 0 in s.calls && s.calls[0] == Call(url, Writing(tmp, o.content[url], |o.content[url]|))
    ensures var t := Next(o, s, Rename(0, true));
            && PathOf(o, url) in t.files && t.files[PathOf(o, url)] == o.content[url]
            && 0 in t.calls && t.calls[0] == Call(url, Returned(Ok(PathOf(o, url))))
  {
  }

  lemma UndisturbedFills(o: Origin, url: string, uuid: string)
    requires Valid(o) && url in o.content
    ensures var s := Run(o, Undisturbed(o, url, uuid));
            && PathOf(o, url) in s.files && s.files[PathOf(o, url)] == o.content[url]
            && 0 in s.calls && s.calls[0] == Call(url, Returned(Ok(PathOf(o, url))))
  {
    var bytes, tmp, a := o.content[url], TempPath(o.digest[url], uuid), FetchActions(url);
    UndisturbedFetches(o, url);
    AloneWrites(o, url, uuid);
    RunSnoc(o, a, Create(0, uuid, true));
    RunSnoc(o, a + [Create(0, uuid, true)], Write(0, |bytes|, true));
    RunSnoc(o, a + [Create(0, uuid, true)] + [Write(0, |bytes|, true)], Rename(0, true));
    AloneMoves(o, Alone(map[tmp := bytes], url, Writing(tmp, bytes, |bytes|), {uuid}), url, tmp);
  }

  ghost predicate AlwaysWhole(o: Origin)
    requires Valid(o)
  {
    forall actions, url | url in o.content :: Holds(o, Run(o, actions).files, url)
  }

  /** The cache never shows a wrong file, over every run, if and only if URLs that
      share a digest share their bytes. */
  lemma SoundIffNoClash(o: Origin)
    requires Valid(o)
    ensures AlwaysWhole(o) <==> NoClash(o)
  {
    if NoClash(o) {
      forall actions, url | url in o.content ensures Holds(o, Run(o, actions).files, url) {
        NeverHalfWritten(o, actions, url);
      }
    }
    if AlwaysWhole(o) {
      forall u, v | u in o.content && v in o.content && o.digest[u] == o.digest[v]
        ensures o.content[u] == o.content[v]
      {
        UndisturbedFills(o, u, "");
        assert Holds(o, Run(o, Undisturbed(o, u, "")).files, v);
      }
    }
  }
}
