/** Requests, limit policies, normalization, and the effective spec a retry is held to. */
module Admission {
  import opened SandboxTypes
  import F = CanonicalFields

  datatype Kind =
    | CreateSandbox | RestoreSandbox | ExecProcess | SignalProcess | KillProcess | CopyIn | CopyOut | SnapshotSandbox
    | CloseSandbox | ReconcileSandbox | CreateVolume | AttachVolume | DetachVolume | DeleteVolume | DeleteSnapshot
    | ApproveSensitive | OtherKind(text: string)

  datatype Overwrite = Unset | FailIfExists | AtomicReplace | OtherOverwrite(text: string)

  /**
   * A request body.  Resources, image and overwrite mode are what normalization reads or writes;
   * `payload` stands for every other field.
   */
  datatype Body = Body(kind: Kind, resources: F.Limits, image: string, overwrite: Overwrite, payload: string)

  datatype Request = Request(id: string, kind: Kind, bodies: seq<Body>)

  /** Checks and digests that depend only on fields normalization leaves alone. */
  datatype Oracle = Oracle(
    bodyRefusal: (string, Kind, string) -> Option<FailureCode>,
    capabilityRefusal: (string, string) -> Option<FailureCode>,
    digest: Request -> string)

  datatype Policy = Policy(
    defaults: F.Limits, maximum: F.Limits, canonicalizerVersion: string, capabilityDigest: string,
    images: Option<map<string, F.ImageInfo>>, imageAdmissionVersion: string,
    maximumOperations: nat, maximumProcesses: nat, maximumGlobalOperations: nat, maximumGlobalProcesses: nat)

  predicate ValidOperationId(id: string) {
    3 < |id| <= 128 && "op_" <= id
  }

  predicate ValidImageDigest(digest: string) {
    |digest| == 71 && "sha256:" <= digest &&
    forall i :: 7 <= i < 71 ==> '0' <= digest[i] <= '9' || 'a' <= digest[i] <= 'f'
  }

  predicate Finite(l: F.Limits) {
    && l.milliCpu > 0 && l.memoryBytes > 0 && l.rootDiskBytes > 0 && l.tmpfsBytes > 0 && l.pids > 0
    && l.processCount > 0
    && l.openFiles > 0 && l.inodes > 0 && l.files > 0 && l.lifetime > 0 && l.producedOutputBytes > 0
    && l.retainedOutputBytes > 0 && l.transferBytes > 0 && l.networkConnections > 0 && l.volumeBytes > 0
    && l.snapshotBytes > 0
  }

  predicate Within(l: F.Limits, m: F.Limits) {
    && l.milliCpu <= m.milliCpu && l.memoryBytes <= m.memoryBytes && l.rootDiskBytes <= m.rootDiskBytes
    && l.tmpfsBytes <= m.tmpfsBytes && l.pids <= m.pids && l.processCount <= m.processCount
    && l.openFiles <= m.openFiles
    && l.inodes <= m.inodes && l.files <= m.files && l.lifetime <= m.lifetime
    && l.producedOutputBytes <= m.producedOutputBytes && l.retainedOutputBytes <= m.retainedOutputBytes
    && l.transferBytes <= m.transferBytes && l.networkConnections <= m.networkConnections
    && l.volumeBytes <= m.volumeBytes && l.snapshotBytes <= m.snapshotBytes
  }

  const ZERO := F.Limits(0, 0, 0, 0, 0, 0, 0, 0, 0, 0, 0, 0, 0, 0, 0, 0)

  predicate ValidPolicy(policy: Policy) {
    && Finite(policy.defaults) && Finite(policy.maximum) && Within(policy.defaults, policy.maximum)
    && policy.maximumOperations < U32 && policy.maximumProcesses < U32
    && policy.maximumGlobalOperations < U32 && policy.maximumGlobalProcesses < U32
  }

  function Or(n: nat, d: nat): nat {
    if n == 0 then d else n
  }

  /** Every zero field takes its default. */
  function Resolve(l: F.Limits, d: F.Limits): F.Limits {
    F.Limits(
      Or(l.milliCpu, d.milliCpu), Or(l.memoryBytes, d.memoryBytes), Or(l.rootDiskBytes, d.rootDiskBytes),
      Or(l.tmpfsBytes, d.tmpfsBytes), Or(l.pids, d.pids), Or(l.processCount, d.processCount),
      Or(l.openFiles, d.openFiles),
      Or(l.inodes, d.inodes), Or(l.files, d.files), if l.lifetime == 0 then d.lifetime else l.lifetime,
      Or(l.producedOutputBytes, d.producedOutputBytes), Or(l.retainedOutputBytes, d.retainedOutputBytes),
      Or(l.transferBytes, d.transferBytes), Or(l.networkConnections, d.networkConnections),
      Or(l.volumeBytes, d.volumeBytes), Or(l.snapshotBytes, d.snapshotBytes))
  }

  /** Resolving again, against what was resolved, changes nothing, whichever of the two is resolved again. */
  lemma ResolveIdempotent(l: F.Limits, d: F.Limits)
    ensures var r := Resolve(l, d); Resolve(l, r) == r && Resolve(r, r) == r && Within(r, r)
    ensures Finite(d) ==> Resolve(l, d) != ZERO
  {
  }

  function Normalize(o: Oracle, r: Request, defaults: F.Limits, maximum: F.Limits): Result<Request> {
    if !ValidOperationId(r.id) || |r.bodies| != 1 || r.bodies[0].kind != r.kind then Err(InvalidArgument)
    else
      var body := r.bodies[0];
      match o.bodyRefusal(r.id, r.kind, body.payload)
      case Some(code) => Err(code)
      case None =>
        if r.kind.CreateSandbox? && !ValidImageDigest(body.image) then Err(InvalidArgument)
        else if r.kind.CreateSandbox? then
          var resolved := Resolve(body.resources, defaults);
          if Within(resolved, maximum) then Ok(r.(bodies := [body.(resources := resolved)]))
          else Err(ResourceLimitExceeded)
        else if r.kind.CopyIn? || r.kind.CopyOut? then
          var overwrite := if body.overwrite.Unset? then FailIfExists else body.overwrite;
          if overwrite.OtherOverwrite? then Err(InvalidArgument) else Ok(r.(bodies := [body.(overwrite := overwrite)]))
        else if r.kind.OtherKind? then Err(InvalidArgument)
        else Ok(r)
  }

  /** Normalization keeps a request's identity and kind. */
  lemma NormalForm(o: Oracle, request: Request, defaults: F.Limits, maximum: F.Limits)
    ensures var normal := Normalize(o, request, defaults, maximum);
            normal.Ok? ==>
              && ValidOperationId(normal.value.id) && normal.value.id == request.id && normal.value.kind == request.kind
              && |normal.value.bodies| == 1
  {
    hide Resolve;
    hide Within;
  }

  // ----- Effective specs -----

  datatype Spec = Spec(
    limits: F.Limits, canonicalizerVersion: string, capabilityDigest: string, image: Option<F.ImageInfo>)

  function AdmitImage(digest: string, policy: Policy): Result<F.ImageInfo> {
    match policy.images
    case None =>
      Ok(F.ImageInfo(digest, "linux/amd64", 1000, 1000, [], "sandbox.guest/v1", policy.imageAdmissionVersion))
    case Some(images) =>
      if digest !in images || images[digest].digest != digest || images[digest].architecture == ""
         || images[digest].guestProtocol == "" || images[digest].uid == 0
      then Err(CapabilityUnavailable)
      else Ok(images[digest].(admissionVersion := policy.imageAdmissionVersion))
  }

  function NewSpec(o: Oracle, r: Request, policy: Policy): Result<Spec>
    requires |r.bodies| == 1
  {
    var body := r.bodies[0];
    var spec := Spec(policy.defaults, policy.canonicalizerVersion, policy.capabilityDigest, None);
    if r.kind.CreateSandbox? then
      match AdmitImage(body.image, policy)
      case Err(code) => Err(code)
      case Ok(image) =>
        if o.capabilityRefusal(body.payload, policy.capabilityDigest).Some?
        then Err(o.capabilityRefusal(body.payload, policy.capabilityDigest).value)
        else
          var limits := if body.resources == ZERO then policy.defaults else body.resources;
          Ok(spec.(limits := limits, image := Some(image)))
    else if r.kind.RestoreSandbox? && o.capabilityRefusal(body.payload, policy.capabilityDigest).Some?
    then Err(o.capabilityRefusal(body.payload, policy.capabilityDigest).value)
    else Ok(spec)
  }

  predicate SameImage(a: F.ImageInfo, b: F.ImageInfo) {
    a.digest == b.digest && a.architecture == b.architecture && a.uid == b.uid && a.gid == b.gid &&
    a.groups == b.groups &&
    a.guestProtocol == b.guestProtocol
  }

  /** The persisted spec may still be used under a later policy. */
  predicate Compatible(spec: Spec, policy: Policy) {
    && Within(spec.limits, policy.maximum)
    && spec.canonicalizerVersion == policy.canonicalizerVersion
    && spec.capabilityDigest == policy.capabilityDigest
    && (spec.image.Some? && spec.image.value.digest != "" ==>
          var current := AdmitImage(spec.image.value.digest, policy);
          current.Ok? && SameImage(spec.image.value, current.value))
  }

  /**
   * What was accepted normalizes to itself against the limits it was accepted with, and so does the
   * caller's original request: a later policy plays no part.
   */
  lemma RetryNormalizes(o: Oracle, original: Request, policy: Policy)
    requires ValidPolicy(policy) && Normalize(o, original, policy.defaults, policy.maximum).Ok?
    requires NewSpec(o, Normalize(o, original, policy.defaults, policy.maximum).value, policy).Ok?
    ensures var frozen := Normalize(o, original, policy.defaults, policy.maximum).value;
            var limits := NewSpec(o, frozen, policy).value.limits;
            && Normalize(o, original, limits, limits) == Ok(frozen)
            && Normalize(o, frozen, limits, limits) == Ok(frozen)
  {
    hide Within;
    hide Finite;
    hide Resolve;
    ResolveIdempotent(original.bodies[0].resources, policy.defaults);
    hide AdmitImage;
  }

  /** The persisted spec is compatible with the very policy it was resolved under. */
  lemma OwnPolicyCompatible(o: Oracle, original: Request, policy: Policy)
    requires ValidPolicy(policy) && Normalize(o, original, policy.defaults, policy.maximum).Ok?
    requires NewSpec(o, Normalize(o, original, policy.defaults, policy.maximum).value, policy).Ok?
    ensures Compatible(NewSpec(o, Normalize(o, original, policy.defaults, policy.maximum).value, policy).value, policy)
  {
    ResolveIdempotent(original.bodies[0].resources, policy.defaults);
    hide Resolve;
    hide Finite;
  }

  // ----- Limits, one amount at a time -----

  const AMOUNTS := 16

  /** The amounts a set of limits holds. */
  function Amounts(l: F.Limits): (amounts: seq<int>)
    ensures |amounts| == AMOUNTS
  {
    [l.milliCpu, l.memoryBytes, l.rootDiskBytes, l.tmpfsBytes, l.pids, l.processCount, l.openFiles, l.inodes,
     l.files, l.lifetime, l.producedOutputBytes, l.retainedOutputBytes, l.transferBytes, l.networkConnections,
     l.volumeBytes, l.snapshotBytes]
  }

  /** The amounts are all there is to limits. */
  lemma AmountsDetermine(a: F.Limits, b: F.Limits)
    requires forall i :: 0 <= i < AMOUNTS ==> Amounts(a)[i] == Amounts(b)[i]
    ensures a == b
  {
    assert Amounts(a)[0] == Amounts(b)[0] && Amounts(a)[1] == Amounts(b)[1] && Amounts(a)[2] == Amounts(b)[2];
    assert Amounts(a)[3] == Amounts(b)[3] && Amounts(a)[4] == Amounts(b)[4] && Amounts(a)[5] == Amounts(b)[5];
    assert Amounts(a)[6] == Amounts(b)[6] && Amounts(a)[7] == Amounts(b)[7] && Amounts(a)[8] == Amounts(b)[8];
    assert Amounts(a)[9] == Amounts(b)[9] && Amounts(a)[10] == Amounts(b)[10] && Amounts(a)[11] == Amounts(b)[11];
    assert Amounts(a)[12] == Amounts(b)[12] && Amounts(a)[13] == Amounts(b)[13] && Amounts(a)[14] == Amounts(b)[14];
    assert Amounts(a)[15] == Amounts(b)[15];
  }

  /** Every amount asked for is kept, and every one left at zero takes its default; no amount affects another. */
  lemma ResolveEach(l: F.Limits, d: F.Limits, i: nat)
    requires i < AMOUNTS
    ensures Amounts(Resolve(l, d))[i] == if Amounts(l)[i] == 0 then Amounts(d)[i] else Amounts(l)[i]
  {
  }

  lemma WithinEach(l: F.Limits, m: F.Limits)
    ensures Within(l, m) <==> forall i :: 0 <= i < AMOUNTS ==> Amounts(l)[i] <= Amounts(m)[i]
  {
    if forall i :: 0 <= i < AMOUNTS ==> Amounts(l)[i] <= Amounts(m)[i] {
      assert Amounts(l)[0] <= Amounts(m)[0] && Amounts(l)[1] <= Amounts(m)[1] && Amounts(l)[2] <= Amounts(m)[2];
      assert Amounts(l)[3] <= Amounts(m)[3] && Amounts(l)[4] <= Amounts(m)[4] && Amounts(l)[5] <= Amounts(m)[5];
      assert Amounts(l)[6] <= Amounts(m)[6] && Amounts(l)[7] <= Amounts(m)[7] && Amounts(l)[8] <= Amounts(m)[8];
      assert Amounts(l)[9] <= Amounts(m)[9] && Amounts(l)[10] <= Amounts(m)[10] && Amounts(l)[11] <= Amounts(m)[11];
      assert Amounts(l)[12] <= Amounts(m)[12] && Amounts(l)[13] <= Amounts(m)[13];
      assert Amounts(l)[14] <= Amounts(m)[14] && Amounts(l)[15] <= Amounts(m)[15];
    }
  }

  lemma FiniteEach(l: F.Limits)
    ensures Finite(l) <==> forall i :: 0 <= i < AMOUNTS ==> Amounts(l)[i] > 0
  {
    if forall i :: 0 <= i < AMOUNTS ==> Amounts(l)[i] > 0 {
      assert Amounts(l)[0] > 0 && Amounts(l)[1] > 0 && Amounts(l)[2] > 0 && Amounts(l)[3] > 0 && Amounts(l)[4] > 0;
      assert Amounts(l)[5] > 0 && Amounts(l)[6] > 0 && Amounts(l)[7] > 0 && Amounts(l)[8] > 0 && Amounts(l)[9] > 0;
      assert Amounts(l)[10] > 0 && Amounts(l)[11] > 0 && Amounts(l)[12] > 0 && Amounts(l)[13] > 0;
      assert Amounts(l)[14] > 0 && Amounts(l)[15] > 0;
    }
  }

  // ----- What is accepted -----

  /** Some amount asked for, or its default, is above the maximum. */
  predicate OverMaximum(l: F.Limits, d: F.Limits, m: F.Limits) {
    exists i :: 0 <= i < AMOUNTS && (if Amounts(l)[i] == 0 then Amounts(d)[i] else Amounts(l)[i]) > Amounts(m)[i]
  }

  lemma OverMaximumExact(l: F.Limits, d: F.Limits, m: F.Limits)
    ensures OverMaximum(l, d, m) <==> !Within(Resolve(l, d), m)
  {
    WithinEach(Resolve(l, d), m);
    forall i | 0 <= i < AMOUNTS
      ensures Amounts(Resolve(l, d))[i] == if Amounts(l)[i] == 0 then Amounts(d)[i] else Amounts(l)[i]
    {
      ResolveEach(l, d, i);
    }
    hide Within;
    hide Resolve;
    hide Amounts;
  }

  /** A request with a valid identifier, exactly one body of its own kind, and nothing wrong inside that body. */
  predicate WellMade(o: Oracle, r: Request) {
    && 3 < |r.id| <= 128 && "op_" <= r.id && |r.bodies| == 1 && r.bodies[0].kind == r.kind && !r.kind.OtherKind?
    && o.bodyRefusal(r.id, r.kind, r.bodies[0].payload).None?
    && (r.kind.CreateSandbox? ==> ValidImageDigest(r.bodies[0].image))
    && (r.kind.CopyIn? || r.kind.CopyOut? ==> !r.bodies[0].overwrite.OtherOverwrite?)
  }

  /**
   * Normalization accepts exactly the well-made requests whose limits, for a create, are within the
   * maximum.  It fills in a create's limits and a copy's overwrite mode and changes nothing else.
   */
  lemma NormalizeExact(o: Oracle, r: Request, d: F.Limits, m: F.Limits)
    ensures var n := Normalize(o, r, d, m);
            && (n.Ok? <==> WellMade(o, r) && (r.kind.CreateSandbox? ==> !OverMaximum(r.bodies[0].resources, d, m)))
            && (n.Ok? ==>
                  && |n.value.bodies| == 1
                  && var body := r.bodies[0];
                     n.value == Request(r.id, r.kind, [Body(
                       body.kind, if r.kind.CreateSandbox? then Resolve(body.resources, d) else body.resources,
                        body.image,
                       if (r.kind.CopyIn? || r.kind.CopyOut?) && body.overwrite.Unset? then FailIfExists
                        else body.overwrite,
                       body.payload)]))
            && (WellMade(o, r) && r.kind.CreateSandbox? && OverMaximum(r.bodies[0].resources, d, m) ==>
                  n == Err(ResourceLimitExceeded))
  {
    if |r.bodies| == 1 {
      OverMaximumExact(r.bodies[0].resources, d, m);
      assert r.bodies == [r.bodies[0]];
    }
    hide OverMaximum;
    hide Within;
    hide Resolve;
    hide ValidImageDigest;
  }

  /** The image the policy admits under a digest. */
  predicate AdmitsImage(policy: Policy, digest: string) {
    policy.images.None? ||
    (&& digest in policy.images.value && policy.images.value[digest].digest == digest
     && policy.images.value[digest].architecture != "" && policy.images.value[digest].guestProtocol != ""
     && policy.images.value[digest].uid != 0)
  }

  lemma AdmitImageExact(digest: string, policy: Policy)
    ensures AdmitImage(digest, policy).Ok? <==> AdmitsImage(policy, digest)
    ensures AdmitImage(digest, policy).Err? ==> AdmitImage(digest, policy) == Err(CapabilityUnavailable)
    ensures AdmitsImage(policy, digest) ==>
              var image := AdmitImage(digest, policy).value;
              && image.digest == digest && image.admissionVersion == policy.imageAdmissionVersion
              && (policy.images.None? ==>
                    && image.architecture == "linux/amd64" && image.uid == 1000 && image.gid == 1000
                    && image.groups == []
                    && image.guestProtocol == "sandbox.guest/v1")
              && (policy.images.Some? ==>
                    image == policy.images.value[digest].(admissionVersion := policy.imageAdmissionVersion))
  {
  }

  /**
   * What is persisted with an accepted request: a create's own limits and its admitted image, the
   * policy's defaults for anything else, and the policy's versions.
   */
  lemma SpecExact(o: Oracle, r: Request, policy: Policy)
    requires |r.bodies| == 1
    ensures var spec := NewSpec(o, r, policy);
            var body := r.bodies[0];
            var refused := (r.kind.CreateSandbox? || r.kind.RestoreSandbox?)
                           && o.capabilityRefusal(body.payload, policy.capabilityDigest).Some?;
            && (spec.Ok? <==> (r.kind.CreateSandbox? ==> AdmitsImage(policy, body.image)) && !refused)
            && (spec.Ok? ==>
                  && spec.value.canonicalizerVersion == policy.canonicalizerVersion
                  && spec.value.capabilityDigest == policy.capabilityDigest
                  && spec.value.limits
                     == (if r.kind.CreateSandbox? && body.resources != ZERO then body.resources else policy.defaults)
                  && (spec.value.image.Some? <==> r.kind.CreateSandbox?)
                  && (r.kind.CreateSandbox? ==> spec.value.image.value.digest == body.image))
            && (spec.Err? ==>
                  spec.code == if r.kind.CreateSandbox? && !AdmitsImage(policy, body.image) then CapabilityUnavailable
                               else o.capabilityRefusal(body.payload, policy.capabilityDigest).value)
  {
    AdmitImageExact(r.bodies[0].image, policy);
    hide AdmitImage;
    hide AdmitsImage;
  }

  /**
   * A retry is incompatible exactly when a persisted limit is above the new maximum, the canonicalizer
   * or the capability profile is another one, or the image is no longer admitted or has another identity.
   */
  lemma CompatibleExact(spec: Spec, policy: Policy)
    ensures !Compatible(spec, policy) <==>
              || (exists i :: 0 <= i < AMOUNTS && Amounts(spec.limits)[i] > Amounts(policy.maximum)[i])
              || spec.canonicalizerVersion != policy.canonicalizerVersion
              || spec.capabilityDigest != policy.capabilityDigest
              || (spec.image.Some? && spec.image.value.digest != ""
                  && (!AdmitsImage(policy, spec.image.value.digest) || DiffersNow(spec.image.value, policy)))
  {
    WithinEach(spec.limits, policy.maximum);
    hide Within;
    hide Amounts;
    if spec.image.Some? {
      AdmitImageExact(spec.image.value.digest, policy);
    }
  }

  /** The policy's image of that digest now has another architecture, identity or guest protocol. */
  predicate DiffersNow(image: F.ImageInfo, policy: Policy) {
    match policy.images
    case None =>
      image.architecture != "linux/amd64" || image.uid != 1000 || image.gid != 1000 || image.groups != []
      || image.guestProtocol != "sandbox.guest/v1"
    case Some(images) =>
      image.digest in images
      && (|| image.architecture != images[image.digest].architecture || image.uid != images[image.digest].uid
          || image.gid != images[image.digest].gid || image.groups != images[image.digest].groups
          || image.guestProtocol != images[image.digest].guestProtocol)
  }
}
