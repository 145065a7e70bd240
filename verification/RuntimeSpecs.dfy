/** Runtime rows, requests, and the specification a request is turned into. */
module RuntimeSpecs {
  import opened Prelude
  import opened Text
  import opened Identity

  // ----- Stored records -----

  datatype Protocol = Tcp | Udp

  /** The order in which a binding's fields were written: as `resolvePorts` writes them, or as the
      automatically appended ssh binding has them. Comparison by JSON text sees this order. */
  datatype Layout = Resolved | Appended

  datatype Binding = Binding(name: Option<string>, containerPort: int, hostPort: int, protocol: Protocol,
                             layout: Layout)

  datatype Field = NameField(string) | ContainerPortField(int) | HostPortField(int) | ProtocolField(Protocol)

  /** The fields of a binding's JSON text in order; an undefined name is left out. */
  function Fields(b: Binding): seq<Field> {
    var name := if b.name.Some? then [NameField(b.name.value)] else [];
    var rest := [ContainerPortField(b.containerPort), HostPortField(b.hostPort), ProtocolField(b.protocol)];
    if b.layout.Resolved? then name + rest else rest + name
  }

  datatype SecretFlags = SecretFlags(
    allowAnyHostDangerous: Option<bool>, requireTlsIdentity: Option<bool>, injectHeaders: Option<bool>,
    injectBasicAuth: Option<bool>, injectQuery: Option<bool>, injectBody: Option<bool>)

  datatype Secret = Secret(
    env: string, value: string, placeholder: Option<string>,
    allowedHosts: seq<string>, allowedHostPatterns: seq<string>, flags: SecretFlags)

  datatype Mount = Mount(volumeId: string, volumeName: string, mountPath: string, readOnly: bool)

  type Environment = seq<(string, string)>

  /** The configuration columns of a row; the nullable ones are options. */
  datatype Config = Config(
    image: string, command: Option<seq<string>>, environment: Option<Environment>, secrets: Option<seq<Secret>>,
    workingDir: Option<string>, mounts: Option<seq<Mount>>, cpu: int, memoryMiB: int, diskGiB: int,
    autoStopMinutes: Option<int>, ephemeral: bool)

  datatype Status = Provisioning | Running | Stopped | Draining | Deleting | Error

  datatype Row = Row(
    sandboxId: string, name: Option<string>, sandboxName: string, portBindings: seq<Binding>,
    primaryPort: int, hostPort: int, primaryPortProtocol: Protocol, public: bool, authToken: string,
    status: Status, statusReason: Option<string>, config: Config)

  // ----- Requests -----

  datatype PortInput = PortInput(name: Option<string>, containerPort: int, protocol: Option<Protocol>)

  datatype SecretInput = SecretInput(
    env: string, value: string, placeholder: Option<string>,
    allowedHosts: Option<seq<string>>, allowedHostPatterns: Option<seq<string>>, flags: SecretFlags)

  datatype VolumeInput = VolumeInput(volumeId: string, mountPath: string, subpath: Option<string>,
                                     readOnly: Option<bool>)

  datatype File = File(path: string, content: string)

  datatype Input = Input(
    name: Option<string>, image: Option<string>, command: Option<seq<string>>, env: Option<Environment>,
    files: Option<seq<File>>, secrets: Option<seq<SecretInput>>, workingDir: Option<string>,
    primaryPort: Option<PortInput>, ports: Option<seq<PortInput>>,
    cpu: Option<int>, memoryMiB: Option<int>, diskGiB: Option<int>, volumes: Option<seq<VolumeInput>>,
    public: Option<bool>, autoStopMinutes: Option<int>, ephemeral: Option<bool>, sshEnabled: Option<bool>,
    forceRecreate: Option<bool>)

  const EMPTY_PATCH := Input(None, None, None, None, None, None, None, None, None, None, None, None, None,
                             None, None, None, None, None)

  datatype Volume = Volume(id: string, name: string)

  /** The volume that a lookup by id or name finds; keys not present are not found. */
  type VolumeDirectory = map<string, Volume>

  datatype Defaults = Defaults(image: string, exposedPort: int, cpu: int, memoryMiB: int, diskGiB: int)

  datatype Failure =
    | InvalidName | NameTaken | NotFound | VolumeNotFound | SubpathUnsupported | NoFreePorts
    | UniqueViolation | AdapterFailure | NotRunning | PortNotExposed

  /** What a request asks for, with all defaults filled in; `config` is written to the row as it is. */
  datatype Spec = Spec(config: Config, ports: seq<Binding>, public: bool, files: seq<File>, ssh: bool)

  // ----- From request to specification -----

  function Map<A, B>(f: A -> B, xs: seq<A>): (ys: seq<B>)
    ensures |ys| == |xs| && forall i :: 0 <= i < |xs| ==> ys[i] == f(xs[i])
  {
    seq(|xs|, i requires 0 <= i < |xs| => f(xs[i]))
  }

  /** `value?.trim() || undefined` */
  function Trimmed(value: Option<string>): Option<string> {
    match value
    case Some(s) => if Trim(s) == "" then None else Some(Trim(s))
    case None => None
  }

  /** `normalizeName`: a blank name is no name, a name without any letter or digit is an error. */
  function NormalizeName(value: Option<string>): Result<Option<string>, Failure> {
    if Trimmed(value).None? then Ok(None)
    else match Normalize(value.value)
      case Some(name) => Ok(Some(name))
      case None => Err(InvalidName)
  }

  const SSH_PORT := 22

  function ResolvePort(p: PortInput): Binding {
    Binding(Trimmed(p.name), p.containerPort, 0, p.protocol.GetOr(Tcp), Resolved)
  }

  function ResolvePorts(defaults: Defaults, ports: Option<seq<PortInput>>, primary: Option<PortInput>): seq<Binding> {
    if ports.GetOr([]) != [] then Map(ResolvePort, ports.value)
    else [ResolvePort(primary.GetOr(PortInput(None, defaults.exposedPort, None)))]
  }

  predicate HasSshPort(ports: seq<Binding>) {
    exists i :: 0 <= i < |ports| && ports[i].containerPort == SSH_PORT
  }

  function SpecPorts(defaults: Defaults, input: Input): (ports: seq<Binding>)
    ensures |ports| > 0
  {
    var ports := ResolvePorts(defaults, input.ports, input.primaryPort);
    if input.sshEnabled != Some(false) && !HasSshPort(ports)
    then ports + [Binding(Some("ssh"), SSH_PORT, 0, Tcp, Appended)]
    else ports
  }

  function SecretOf(s: SecretInput): Secret {
    Secret(s.env, s.value, s.placeholder, s.allowedHosts.GetOr([]), s.allowedHostPatterns.GetOr([]), s.flags)
  }

  function MountsOf(volumes: VolumeDirectory, inputs: seq<VolumeInput>): Result<seq<Mount>, Failure> {
    if inputs == [] then Ok([])
    else
      var head := inputs[0];
      if head.volumeId !in volumes then Err(VolumeNotFound)
      else if Trimmed(head.subpath).Some? then Err(SubpathUnsupported)
      else
        var volume := volumes[head.volumeId];
        After([Mount(volume.id, volume.name, head.mountPath, head.readOnly == Some(true))],
              MountsOf(volumes, inputs[1..]))
  }

  function After(first: seq<Mount>, rest: Result<seq<Mount>, Failure>): Result<seq<Mount>, Failure> {
    match rest
    case Ok(mounts) => Ok(first + mounts)
    case Err(e) => Err(e)
  }

  lemma AfterAppend(first: seq<Mount>, mount: Mount, rest: Result<seq<Mount>, Failure>)
    ensures After(first, After([mount], rest)) == After(first + [mount], rest)
  {
    if rest.Ok? {
      assert first + ([mount] + rest.value) == first + [mount] + rest.value;
    }
  }

  /** The loop of `resolveVolumes`: stops at the first mount that does not resolve. */
  method ResolveVolumes(volumes: VolumeDirectory, inputs: seq<VolumeInput>) returns (r: Result<seq<Mount>, Failure>)
    ensures r == MountsOf(volumes, inputs)
    ensures r.Ok? ==> |r.value| == |inputs|
    ensures r.Ok? ==> forall i :: 0 <= i < |inputs| ==>
              && inputs[i].volumeId in volumes
              && r.value[i] == Mount(volumes[inputs[i].volumeId].id, volumes[inputs[i].volumeId].name,
                                     inputs[i].mountPath, inputs[i].readOnly == Some(true))
  {
    var mounts: seq<Mount> := [];
    assert inputs[0..] == inputs;
    assert After([], MountsOf(volumes, inputs)) == MountsOf(volumes, inputs) by {
      var all := MountsOf(volumes, inputs);
      assert all.Ok? ==> [] + all.value == all.value;
    }
    for i := 0 to |inputs|
      invariant |mounts| == i
      invariant forall k :: 0 <= k < i ==>
                  && inputs[k].volumeId in volumes
                  && mounts[k] == Mount(volumes[inputs[k].volumeId].id, volumes[inputs[k].volumeId].name,
                                        inputs[k].mountPath, inputs[k].readOnly == Some(true))
      invariant MountsOf(volumes, inputs) == After(mounts, MountsOf(volumes, inputs[i..]))
    {
      var input := inputs[i];
      assert inputs[i..][0] == input && inputs[i..][1..] == inputs[i + 1..];
      if input.volumeId !in volumes {
        return Err(VolumeNotFound);
      }
      if Trimmed(input.subpath).Some? {
        return Err(SubpathUnsupported);
      }
      var volume := volumes[input.volumeId];
      var mount := Mount(volume.id, volume.name, input.mountPath, input.readOnly == Some(true));
      AfterAppend(mounts, mount, MountsOf(volumes, inputs[i + 1..]));
      mounts := mounts + [mount];
    }
    assert After(mounts, MountsOf(volumes, [])) == Ok(mounts) by {
      assert mounts + [] == mounts;
    }
    assert inputs[|inputs|..] == [];
    return Ok(mounts);
  }

  function NonEmpty<T(==)>(value: Option<seq<T>>): Option<seq<T>> {
    if value == Some([]) then None else value
  }

  /** The specification once volumes and ports are resolved. */
  function SpecWith(defaults: Defaults, input: Input, mounts: seq<Mount>, ports: seq<Binding>): Spec {
    Spec(
      Config(
        Trimmed(input.image).GetOr(defaults.image),
        NonEmpty(input.command),
        Some(input.env.GetOr([])),
        Some(Map(SecretOf, input.secrets.GetOr([]))),
        Trimmed(input.workingDir),
        Some(mounts),
        input.cpu.GetOr(defaults.cpu),
        input.memoryMiB.GetOr(defaults.memoryMiB),
        input.diskGiB.GetOr(defaults.diskGiB),
        if input.autoStopMinutes.GetOr(0) > 0 then input.autoStopMinutes else None,
        input.ephemeral == Some(true)),
      ports,
      input.public == Some(true),
      input.files.GetOr([]),
      input.sshEnabled != Some(false))
  }

  function BuildSpec(defaults: Defaults, volumes: VolumeDirectory, input: Input): Result<Spec, Failure> {
    match MountsOf(volumes, input.volumes.GetOr([]))
    case Err(e) => Err(e)
    case Ok(mounts) => Ok(SpecWith(defaults, input, mounts, SpecPorts(defaults, input)))
  }

  // ----- Updates -----

  function SecretInputOf(s: Secret): SecretInput {
    SecretInput(s.env, s.value, s.placeholder, Some(s.allowedHosts), Some(s.allowedHostPatterns), s.flags)
  }

  function PortInputOf(b: Binding): PortInput {
    PortInput(b.name, b.containerPort, Some(b.protocol))
  }

  function VolumeInputOf(m: Mount): VolumeInput {
    VolumeInput(m.volumeId, m.mountPath, None, Some(m.readOnly))
  }

  function Either<T>(first: Option<T>, second: Option<T>): Option<T> {
    if first.Some? then first else second
  }

  /** `buildUpdateInput`: what the patch does not name is taken from the row, except the ssh setting. */
  function UpdateInput(row: Row, patch: Input): Input {
    var c := row.config;
    Input(
      Either(patch.name, row.name),
      Some(patch.image.GetOr(c.image)),
      Either(patch.command, c.command),
      Some(Either(patch.env, c.environment).GetOr([])),
      Some(patch.files.GetOr([])),
      Some(patch.secrets.GetOr(Map(SecretInputOf, c.secrets.GetOr([])))),
      Either(patch.workingDir, c.workingDir),
      None,
      Some(patch.ports.GetOr(Map(PortInputOf, row.portBindings))),
      Some(patch.cpu.GetOr(c.cpu)),
      Some(patch.memoryMiB.GetOr(c.memoryMiB)),
      Some(patch.diskGiB.GetOr(c.diskGiB)),
      Some(patch.volumes.GetOr(Map(VolumeInputOf, c.mounts.GetOr([])))),
      Some(patch.public.GetOr(row.public)),
      Either(patch.autoStopMinutes, c.autoStopMinutes),
      Some(patch.ephemeral.GetOr(c.ephemeral)),
      None,
      patch.forceRecreate)
  }

  // ----- The recreate decision -----

  /** `portBindingsEqual`: equality of JSON texts. */
  predicate BindingsEqual(current: seq<Binding>, next: seq<Binding>) {
    Map(Fields, current) == Map(Fields, next)
  }

  /** The ports of a specification with the host ports the row has at the same positions. */
  function WithHostPorts(row: Row, ports: seq<Binding>): (r: seq<Binding>)
    ensures |r| == |ports|
  {
    seq(|ports|, i requires 0 <= i < |ports| =>
      ports[i].(hostPort := if i < |row.portBindings| then row.portBindings[i].hostPort else row.hostPort))
  }

  predicate RequiresRecreate(row: Row, next: Spec, nextName: Option<string>) {
    || row.name != nextName
    || row.config.image != next.config.image
    || row.config.command.GetOr([]) != next.config.command.GetOr([])
    || row.config.environment.GetOr([]) != next.config.environment.GetOr([])
    || row.config.secrets.GetOr([]) != next.config.secrets.GetOr([])
    || row.config.workingDir != next.config.workingDir
    || !BindingsEqual(row.portBindings, WithHostPorts(row, next.ports))
    || row.config.mounts.GetOr([]) != next.config.mounts.GetOr([])
    || row.public != next.public
    || row.config.cpu != next.config.cpu
    || row.config.memoryMiB != next.config.memoryMiB
    || row.config.diskGiB != next.config.diskGiB
    || row.config.autoStopMinutes != next.config.autoStopMinutes
    || row.config.ephemeral != next.config.ephemeral
  }

  // ----- Laws of the recreate decision -----

  /** Two bindings ask for the same port; host port and field order aside. */
  predicate SamePort(a: Binding, b: Binding) {
    a.name == b.name && a.containerPort == b.containerPort && a.protocol == b.protocol
  }

  predicate SamePorts(a: seq<Binding>, b: seq<Binding>) {
    |a| == |b| && forall i :: 0 <= i < |a| ==> SamePort(a[i], b[i])
  }

  /** The order of fields is the same; without a name the two layouts write the same text. */
  predicate SameOrder(a: Binding, b: Binding) {
    a.layout == b.layout || a.name.None?
  }

  lemma FieldsDetermine(a: Binding, b: Binding)
    ensures Fields(a) == Fields(b) <==> SamePort(a, b) && a.hostPort == b.hostPort && SameOrder(a, b)
  {
    var fa, fb := Fields(a), Fields(b);
    if fa == fb {
      assert |fa| == if a.name.Some? then 4 else 3;
      assert |fb| == if b.name.Some? then 4 else 3;
      assert fa[0] == fb[0] && fa[1] == fb[1] && fa[2] == fb[2];
      assert a.name.Some? ==> fa[3] == fb[3];
    }
  }

  /** The configurations agree, null being the same as an empty list. */
  ghost predicate ConfigAgrees(a: Config, b: Config) {
    a.(command := Some(a.command.GetOr([])), environment := Some(a.environment.GetOr([])),
       secrets := Some(a.secrets.GetOr([])), mounts := Some(a.mounts.GetOr([])))
    == b.(command := Some(b.command.GetOr([])), environment := Some(b.environment.GetOr([])),
          secrets := Some(b.secrets.GetOr([])), mounts := Some(b.mounts.GetOr([])))
  }

  /** The decision is exact: nothing is recreated iff name, visibility, configuration and ports all agree,
      the ports also in the order of their fields. */
  lemma RecreateExactly(row: Row, spec: Spec, name: Option<string>)
    ensures !RequiresRecreate(row, spec, name) <==>
            && row.name == name && row.public == spec.public && ConfigAgrees(row.config, spec.config)
            && SamePorts(row.portBindings, spec.ports)
            && forall i :: 0 <= i < |spec.ports| ==> SameOrder(row.portBindings[i], spec.ports[i])
  {
    var next := WithHostPorts(row, spec.ports);
    var was := row.portBindings;
    if |was| == |next| {
      forall i | 0 <= i < |was| ensures Fields(was[i]) == Fields(next[i]) <==>
                                        SamePort(was[i], spec.ports[i]) && SameOrder(was[i], spec.ports[i])
      {
        FieldsDetermine(was[i], next[i]);
      }
      BindingsEqualPointwise(was, next);
    } else {
      assert |Map(Fields, was)| != |Map(Fields, next)|;
    }
  }

  lemma BindingsEqualPointwise(a: seq<Binding>, b: seq<Binding>)
    requires |a| == |b|
    ensures BindingsEqual(a, b) <==> forall i :: 0 <= i < |a| ==> Fields(a[i]) == Fields(b[i])
  {
    var fa, fb := Map(Fields, a), Map(Fields, b);
    if BindingsEqual(a, b) {
      forall i | 0 <= i < |a| ensures Fields(a[i]) == Fields(b[i]) {
        assert fa[i] == fb[i];
      }
    }
  }

  // ----- Laws of updates -----

  /** The form in which specifications write strings, lists and limits. */
  ghost predicate CanonicalConfig(c: Config) {
    && c.image != "" && Trim(c.image) == c.image
    && c.command != Some([]) && c.environment.Some? && c.secrets.Some? && c.mounts.Some?
    && (c.workingDir.Some? ==> c.workingDir.value != "" && Trim(c.workingDir.value) == c.workingDir.value)
    && (c.autoStopMinutes.Some? ==> c.autoStopMinutes.value > 0)
  }

  ghost predicate CanonicalBinding(b: Binding) {
    b.name.Some? ==> b.name.value != "" && Trim(b.name.value) == b.name.value
  }

  ghost predicate CanonicalBindings(bs: seq<Binding>) {
    forall i :: 0 <= i < |bs| ==> CanonicalBinding(bs[i])
  }

  ghost predicate CanonicalRow(row: Row) {
    && CanonicalConfig(row.config) && CanonicalBindings(row.portBindings)
    && Normalized(row.sandboxId) && (row.name.Some? ==> Normalized(row.name.value))
  }

  ghost predicate GoodDefaults(d: Defaults) {
    d.image != "" && Trim(d.image) == d.image
  }

  lemma TrimmedIsCanonical(value: Option<string>)
    ensures var t := Trimmed(value); t.Some? ==> t.value != "" && Trim(t.value) == t.value
    ensures value.Some? && value.value != "" && Trim(value.value) == value.value ==> Trimmed(value) == value
  {
    if value.Some? {
      TrimTwice(value.value);
    }
  }

  lemma SpecIsCanonical(defaults: Defaults, volumes: VolumeDirectory, input: Input)
    requires GoodDefaults(defaults) && BuildSpec(defaults, volumes, input).Ok?
    ensures var spec := BuildSpec(defaults, volumes, input).value;
            CanonicalConfig(spec.config) && CanonicalBindings(spec.ports)
  {
    TrimmedIsCanonical(input.image);
    TrimmedIsCanonical(input.workingDir);
    ResolvedPortsAreCanonical(defaults, input.ports, input.primaryPort);
    TrimFixesSsh();
  }

  lemma TrimFixesSsh()
    ensures Trim("ssh") == "ssh"
  {
    AllowedIsNotSpace('s');
    AllowedIsNotSpace('h');
    StripIsBare("ssh", IsSpace);
  }

  lemma ResolvedPortsAreCanonical(defaults: Defaults, ports: Option<seq<PortInput>>, primary: Option<PortInput>)
    ensures CanonicalBindings(ResolvePorts(defaults, ports, primary))
  {
    forall p: PortInput ensures CanonicalBinding(ResolvePort(p)) {
      TrimmedIsCanonical(p.name);
    }
  }

  /** The volumes of a row's mounts are still there under the recorded names. */
  ghost predicate VolumesResolve(volumes: VolumeDirectory, mounts: seq<Mount>) {
    forall i :: 0 <= i < |mounts| ==>
      mounts[i].volumeId in volumes && volumes[mounts[i].volumeId] == Volume(mounts[i].volumeId, mounts[i].volumeName)
  }

  lemma {:induction false} MountsRoundTrip(volumes: VolumeDirectory, mounts: seq<Mount>)
    requires VolumesResolve(volumes, mounts)
    ensures MountsOf(volumes, Map(VolumeInputOf, mounts)) == Ok(mounts)
  {
    if mounts != [] {
      MountsRoundTrip(volumes, mounts[1..]);
      assert Map(VolumeInputOf, mounts)[1..] == Map(VolumeInputOf, mounts[1..]);
      assert mounts == [mounts[0]] + mounts[1..];
    }
  }

  lemma SecretsRoundTrip(secrets: seq<Secret>)
    ensures Map(SecretOf, Map(SecretInputOf, secrets)) == secrets
  {
  }

  lemma PortsRoundTrip(defaults: Defaults, bindings: seq<Binding>)
    requires bindings != [] && CanonicalBindings(bindings)
    ensures var ports := ResolvePorts(defaults, Some(Map(PortInputOf, bindings)), None);
            SamePorts(bindings, ports) && forall i :: 0 <= i < |ports| ==> ports[i].layout.Resolved?
  {
    forall i | 0 <= i < |bindings| ensures SamePort(bindings[i], ResolvePort(PortInputOf(bindings[i]))) {
      TrimmedIsCanonical(bindings[i].name);
    }
  }

  /** The name after an update. */
  lemma UpdateName(row: Row, patch: Input)
    requires CanonicalRow(row)
    ensures NormalizeName(UpdateInput(row, patch).name)
         == if patch.name.None? then Ok(row.name) else NormalizeName(patch.name)
  {
    if patch.name.None? && row.name.Some? {
      NamesAreKept(row.name.value);
    }
  }

  /** The mounts after an update: kept unless the patch names volumes. */
  lemma UpdateMounts(volumes: VolumeDirectory, row: Row, patch: Input)
    requires CanonicalRow(row)
    requires patch.volumes.None? ==> VolumesResolve(volumes, row.config.mounts.value)
    ensures MountsOf(volumes, UpdateInput(row, patch).volumes.GetOr([]))
         == if patch.volumes.None? then Ok(row.config.mounts.value) else MountsOf(volumes, patch.volumes.value)
  {
    if patch.volumes.None? {
      MountsRoundTrip(volumes, row.config.mounts.value);
    }
  }

  /** A field of the updated configuration: what the patch says if it names the field, else what the row has. */
  function Patched(defaults: Defaults, was: Config, mounts: seq<Mount>, patch: Input): Config {
    Config(
      if patch.image.None? then was.image else Trimmed(patch.image).GetOr(defaults.image),
      if patch.command.None? then was.command else NonEmpty(patch.command),
      Either(patch.env, was.environment),
      if patch.secrets.None? then was.secrets else Some(Map(SecretOf, patch.secrets.value)),
      if patch.workingDir.None? then was.workingDir else Trimmed(patch.workingDir),
      if patch.volumes.None? then was.mounts else Some(mounts),
      patch.cpu.GetOr(was.cpu),
      patch.memoryMiB.GetOr(was.memoryMiB),
      patch.diskGiB.GetOr(was.diskGiB),
      if patch.autoStopMinutes.None? then was.autoStopMinutes
      else if patch.autoStopMinutes.value > 0 then patch.autoStopMinutes else None,
      patch.ephemeral.GetOr(was.ephemeral))
  }

  /** Going through the request form changes nothing that the patch does not name. */
  lemma UpdateLaw(defaults: Defaults, volumes: VolumeDirectory, row: Row, patch: Input)
    requires CanonicalRow(row)
    requires patch.volumes.None? ==> VolumesResolve(volumes, row.config.mounts.value)
    ensures var r := BuildSpec(defaults, volumes, UpdateInput(row, patch));
            && (r.Ok? <==> patch.volumes.None? || MountsOf(volumes, patch.volumes.value).Ok?)
            && (r.Ok? ==>
              && r.value.public == patch.public.GetOr(row.public)
              && r.value.config == Patched(defaults, row.config, r.value.config.mounts.GetOr([]), patch)
              && (patch.volumes.Some? ==>
                  Ok(r.value.config.mounts.GetOr([])) == MountsOf(volumes, patch.volumes.value)))
  {
    TrimmedIsCanonical(Some(row.config.image));
    TrimmedIsCanonical(row.config.workingDir);
    SecretsRoundTrip(row.config.secrets.value);
    UpdateMounts(volumes, row, patch);
  }

  lemma NamesAreKept(name: string)
    requires Normalized(name)
    ensures NormalizeName(Some(name)) == Ok(Some(name))
  {
    IdentitiesAreFixed(name);
    AllowedIsNotSpace(name[0]);
    StripIsBare(name, IsSpace);
  }

  /** An update that names no ports keeps the ports exactly when one of them is the ssh port;
      otherwise the ssh binding is added, whatever the runtime was created with. */
  lemma UpdateKeepsPorts(defaults: Defaults, row: Row, patch: Input)
    requires CanonicalRow(row) && row.portBindings != [] && patch.ports.None?
    ensures var ports := SpecPorts(defaults, UpdateInput(row, patch));
            && (SamePorts(row.portBindings, ports) <==> HasSshPort(row.portBindings))
            && (HasSshPort(row.portBindings) ==> forall i :: 0 <= i < |ports| ==> ports[i].layout.Resolved?)
            && (!HasSshPort(row.portBindings) ==> |ports| == |row.portBindings| + 1)
  {
    var resolved := ResolvePorts(defaults, Some(Map(PortInputOf, row.portBindings)), None);
    PortsRoundTrip(defaults, row.portBindings);
    assert HasSshPort(resolved) <==> HasSshPort(row.portBindings) by {
      if HasSshPort(resolved) {
        var i :| 0 <= i < |resolved| && resolved[i].containerPort == SSH_PORT;
        assert SamePort(row.portBindings[i], resolved[i]);
      }
      if HasSshPort(row.portBindings) {
        var i :| 0 <= i < |row.portBindings| && row.portBindings[i].containerPort == SSH_PORT;
        assert SamePort(row.portBindings[i], resolved[i]);
      }
    }
  }

  /** An empty update of a runtime with an ssh port recreates it exactly when a named binding still has the
      field order of the appended ssh binding: the text of that binding changes though no value does. */
  lemma EmptyUpdateRecreatesExactly(defaults: Defaults, volumes: VolumeDirectory, row: Row)
    requires CanonicalRow(row) && HasSshPort(row.portBindings) && VolumesResolve(volumes, row.config.mounts.value)
    ensures BuildSpec(defaults, volumes, UpdateInput(row, EMPTY_PATCH)).Ok?
    ensures RequiresRecreate(row, BuildSpec(defaults, volumes, UpdateInput(row, EMPTY_PATCH)).value, row.name) <==>
            exists i ::
                0 <= i < |row.portBindings| && row.portBindings[i].layout.Appended? && row.portBindings[i].name.Some?
  {
    UpdateLaw(defaults, volumes, row, EMPTY_PATCH);
    UpdateKeepsPorts(defaults, row, EMPTY_PATCH);
    var spec := BuildSpec(defaults, volumes, UpdateInput(row, EMPTY_PATCH)).value;
    RecreateExactly(row, spec, row.name);
  }
}
