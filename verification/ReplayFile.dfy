/** The replay cache on disk: verifier processes that share it allow each challenge at most once. */
module ReplayFile {
  import opened Bytes
  import opened Types
  import opened Hex
  import opened Circuit
  import opened Verifier
  import opened LockedFile

  const REPLAY_CACHE_VERSION: u16 := 1

  datatype CacheFile = CacheFile(version: u16, consumed: seq<Str>)

  datatype Allowed = Allowed(digest: Digest, verified: Verified, total: nat)

  /** A missing file is an empty cache; another version or bad text ends the process, by an error or a panic. */
  function LoadCache(file: Option<CacheFile>): Option<set<Digest>> {
    match file
    case None => Some({})
    case Some(f) =>
      if f.version != REPLAY_CACHE_VERSION then None
      else
        match ReadAll(HexDigest, f.consumed)
        case None => None
        case Some(digests) => Some(set d | d in digests)
  }

  ghost function SaveCache(cache: set<Digest>): CacheFile {
    CacheFile(REPLAY_CACHE_VERSION, Listing(HexSet(cache)))
  }

  /** What is saved is what the next process loads. */
  lemma SaveThenLoad(cache: set<Digest>)
    ensures LoadCache(Some(SaveCache(cache))) == Some(cache)
  {
    forall d: Digest | d in cache ensures HexDigest(ToHex(d)) == Some(d) {
      HexRoundTrip(d);
    }
    var digests := ReadListing(HexDigest, cache);
  }

  /** One verification on the file: load, verify, save. */
  ghost function ApplyVerify(p: Platform, file: Option<CacheFile>, r: Request): Option<(CacheFile, Allowed)> {
    match LoadCache(file)
    case None => None
    case Some(consumed) =>
      match Verify(p, r, consumed)
      case Err(_) => None
      case Ok(verified) =>
        var digest := ChallengeDigest(p.sha, r.envelope.challenge);
        Some((SaveCache(consumed + {digest}), Allowed(digest, verified, |consumed + {digest}|)))
  }

  ghost function Verifying(p: Platform): Operation<CacheFile, Request, Allowed> {
    (file, r) => ApplyVerify(p, file, r)
  }

  /** The digests listed in a file, whatever its version: those of its readable entries. */
  ghost function Listed(file: Option<CacheFile>): set<Digest> {
    match file
    case None => {}
    case Some(f) => Readable(HexDigest, f.consumed)
  }

  /** The file is missing, or has the one version and only readable entries. */
  ghost predicate Loadable(file: Option<CacheFile>) {
    file.Some? ==> file.value.version == 1 && forall entry :: entry in file.value.consumed ==> HexDigest(entry).Some?
  }

  /** A file loads exactly when it is loadable, and then to the digests it lists. */
  lemma LoadExact(file: Option<CacheFile>)
    ensures LoadCache(file) == if Loadable(file) then Some(Listed(file)) else None
  {
    if file.Some? {
      ReadAllExact(HexDigest, file.value.consumed);
    }
  }

  /** A report is genuine: its request passes every check, and it carries that request's digest and verdict. */
  predicate Genuine(p: Platform, r: Request, a: Allowed) {
    Verify(p, r, {}).Ok? && a.digest == ChallengeDigest(p.sha, r.expected) && Reports(p, r, a.verified)
  }

  /** When one verification on the file succeeds: the file loads, the request passes, and its digest is not listed. */
  lemma AllowsExactly(p: Platform, file: Option<CacheFile>, r: Request)
    ensures ApplyVerify(p, file, r).Some? <==>
            Loadable(file) && Verify(p, r, {}).Ok? && ChallengeDigest(p.sha, r.expected) !in Listed(file)
  {
    LoadExact(file);
    AcceptanceExact(p, r, Listed(file));
    AcceptanceExact(p, r, {});
  }

  lemma ApplyVerifyAdds(p: Platform, file: Option<CacheFile>, r: Request)
    requires ApplyVerify(p, file, r).Some?
    ensures var (next, out) := ApplyVerify(p, file, r).value;
            && Listed(Some(next)) == Listed(file) + {out.digest} && out.digest !in Listed(file)
            && Loadable(Some(next)) && out.total == |Listed(Some(next))|
            && Genuine(p, r, out)
  {
    var (next, out) := ApplyVerify(p, file, r).value;
    LoadExact(file);
    LoadExact(Some(next));
    SaveThenLoad(Listed(file) + {out.digest});
    VerdictOf(p, r, Listed(file));
  }

  lemma VerdictOf(p: Platform, r: Request, consumed: set<Digest>)
    requires Verify(p, r, consumed).Ok?
    ensures Verify(p, r, {}).Ok? && Reports(p, r, Verify(p, r, consumed).value)
    ensures r.envelope.challenge == r.expected && ChallengeDigest(p.sha, r.expected) !in consumed
  {
    AcceptanceExact(p, r, consumed);
    AcceptanceExact(p, r, {});
    AcceptedValue(p, r, consumed);
  }

  /** A file that does not load yields no ALLOW, in any run, and stays as it was. */
  lemma UnloadableFileStays(p: Platform, file: Option<CacheFile>, events: seq<Event<Request>>)
    requires !Loadable(file)
    ensures var w := Run(Verifying(p), file, events);
            w.file == file && w.reports == []
  {
    forall r: Request ensures Verifying(p)(file, r) == None {
      AllowsExactly(p, file, r);
    }
    RefusingFileStays(Verifying(p), file, events);
  }

  ghost function DigestOf(): Allowed -> Digest {
    (a: Allowed) => a.digest
  }

  lemma VerifyingUsesDigests(p: Platform)
    ensures UsesTokens(Verifying(p), Listed, DigestOf())
  {
    forall f: Option<CacheFile>, r: Request | Verifying(p)(f, r).Some?
      ensures Listed(Some(Verifying(p)(f, r).value.0)) == Listed(f) + {DigestOf()(Verifying(p)(f, r).value.1)}
      ensures DigestOf()(Verifying(p)(f, r).value.1) !in Listed(f)
    {
      ApplyVerifyAdds(p, f, r);
    }
  }

  /**
   * For any number of processes, any interleaving and any stops: no two ALLOW reports carry one digest, every
   * reported digest is in the file and was not there at the start, and every report is genuine.
   */
  lemma AllowedAtMostOnce(p: Platform, file: Option<CacheFile>, events: seq<Event<Request>>)
    ensures var w := Run(Verifying(p), file, events);
            && (forall i, j :: 0 <= i < j < |w.reports| ==> w.reports[i].1.digest != w.reports[j].1.digest)
            && (forall i :: 0 <= i < |w.reports| ==>
                  w.reports[i].1.digest in Listed(w.file) && w.reports[i].1.digest !in Listed(file))
            && (forall report :: report in w.reports ==> GoodReport((r, a) => Genuine(p, r, a), w, report))
  {
    VerifyingUsesDigests(p);
    ReportsUseTokens(Verifying(p), Listed, DigestOf(), file, events);
    forall f: Option<CacheFile>, r: Request | Verifying(p)(f, r).Some?
      ensures Genuine(p, r, Verifying(p)(f, r).value.1)
    {
      ApplyVerifyAdds(p, f, r);
    }
    ReportsAreOutputs(Verifying(p), (r, a) => Genuine(p, r, a), file, events);
  }

  /** Behind every ALLOW there is a request of some process and a hidden account that meets that request's gate. */
  lemma AllowedMeansHeld(p: Platform, file: Option<CacheFile>, events: seq<Event<Request>>, k: nat)
      returns (r: Request, w: Witness, balance: u128)
    requires ReceiptsSound(p)
    requires k < |Run(Verifying(p), file, events).reports|
    ensures r in Run(Verifying(p), file, events).started
    ensures Run(Verifying(p), file, events).reports[k].1.digest == ChallengeDigest(p.sha, r.expected)
    ensures w.context.owner == r.gate.context.owner && w.context.definitionId == r.gate.context.definitionId
    ensures w.root == r.expected.root && w.presenter == r.envelope.journal.presenter
    ensures Holds(p.sha, w, balance) && balance >= r.gate.context.threshold > 0
  {
    AllowedAtMostOnce(p, file, events);
    var world := Run(Verifying(p), file, events);
    var report := world.reports[k];
    assert report in world.reports && GoodReport((r, a) => Genuine(p, r, a), world, report);
    r := world.started[world.saved[report.0]];
    w, balance := AcceptanceSound(p, r, {});
  }

  /** The persisted set only grows, whatever happens. */
  lemma PersistedOnlyGrows(p: Platform, file: Option<CacheFile>, events: seq<Event<Request>>, k: nat)
    requires k <= |events|
    ensures Listed(Run(Verifying(p), file, events[..k]).file) <= Listed(Run(Verifying(p), file, events).file)
  {
    VerifyingUsesDigests(p);
    TokensGrow(Verifying(p), Listed, DigestOf(), file, events, k);
  }
}
