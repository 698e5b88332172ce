/** Applying a blueprint: a staged pipeline that publishes its outcome after
    every step. The answers of the outside world are one script, read in order. */
module ApplyPipeline {
  import opened Basics

  datatype Status = NotRun | Succeeded | Failed(error: string)

  datatype Package = Package(name: string, version: string)
  datatype PackageResult = PackageResult(name: string, version: string, status: Status)
  datatype Identity = Identity(name: string, version: string, integrity: string)

  datatype WriteKind = Patch | Settings | Model | Provenance
  datatype WriteResult = WriteResult(kind: WriteKind, status: Status)

  datatype Outcome = Outcome(
    spaceId: Option<string>,
    spaceCreate: Status, packages: Status, presets: Status, start: Status,
    installed: seq<Identity>,
    packageResults: seq<PackageResult>,
    writes: seq<WriteResult>)

  /** A package and what its steps answer: the archive prepared for it or the reason
      there is none, the reason the installation fails with, and the name and version
      then found in the space. */
  datatype Install = Install(
    package: Package, archive: Result<Identity, string>, failure: Option<string>, found: Option<Package>)

  const PACKAGE_FAILED := "Package installation failed."
  const NOT_THE_ARCHIVE := "Installed package identity does not match the prepared archive."

  predicate Names(identity: Identity, name: string, version: string) {
    identity.name == name && identity.version == version
  }

  /** An archive that names another package is refused, and so is finding another
      package than the archive's. */
  function InstallError(i: Install): (error: Option<string>)
    ensures error.None? ==> i.archive.Ok? && Names(i.archive.value, i.package.name, i.package.version)
  {
    if i.archive.Err? then Some(i.archive.error)
    else if !Names(i.archive.value, i.package.name, i.package.version) then Some(PACKAGE_FAILED)
    else if i.failure.Some? then i.failure
    else if i.found != Some(i.package) then Some(NOT_THE_ARCHIVE)
    else None
  }

  /** What each outside step answers; a `Some` is the reason it fails with. */
  datatype Script = Script(
    staging: Option<string>,      // cancellation, host versions, observation, consuming the plan
    validation: Option<string>,   // diagnostics, secrets, inputs, directory, model, home patch
    creation: Option<string>, created: bool,
    installs: seq<Install>, composition: Option<string>,
    aborted: Option<string>, patch: Option<string>, settings: Option<string>,
    bindsModel: bool, model: Option<string>, compose: Option<string>,
    provenance: Option<string>, host: Option<string>)

  const NOT_CREATED := "The space was not created."

  function EmptyWrites(): seq<WriteResult> {
    [WriteResult(Patch, NotRun), WriteResult(Settings, NotRun), WriteResult(Model, NotRun), WriteResult(Provenance, NotRun)]
  }

  const EMPTY := Outcome(None, NotRun, NotRun, NotRun, NotRun, [], [], EmptyWrites())

  // ---- what every published outcome satisfies ----

  /** The first `done` packages succeeded, and they are what is installed; the next one may
      have failed, the rest did not run. */
  ghost predicate PackageShape(o: Outcome, done: nat) {
    && done <= |o.packageResults|
    && |o.installed| == done
    && (forall i :: 0 <= i < done ==> o.packageResults[i].status == Succeeded && NamesRow(o, i))
    && (forall i :: done < i < |o.packageResults| ==> o.packageResults[i].status == NotRun)
    && (done < |o.packageResults| ==> o.packageResults[done].status != Succeeded)
    && (done < |o.packageResults| && o.packageResults[done].status.Failed? ==> o.packages.Failed?)
    && (o.packages == Succeeded ==> done == |o.packageResults|)
  }

  /** The i-th installed identity is that of the i-th package row. */
  predicate NamesRow(o: Outcome, i: nat)
    requires i < |o.installed| && i < |o.packageResults|
  {
    Names(o.installed[i], o.packageResults[i].name, o.packageResults[i].version)
  }

  ghost predicate StageOrder(o: Outcome) {
    && (o.packages != NotRun ==> o.spaceCreate == Succeeded)
    && (o.presets != NotRun ==> o.packages == Succeeded)
    && o.start == NotRun
    && ((exists i :: 0 <= i < |o.packageResults| && o.packageResults[i].status != NotRun) ==> o.spaceCreate == Succeeded)
    && ((exists i :: 0 <= i < |o.writes| && o.writes[i].status != NotRun) ==> o.packages == Succeeded)
    && (o.spaceCreate == Succeeded ==> o.spaceId.Some?)
  }

  ghost predicate WriteShape(o: Outcome, bindsModel: bool) {
    && |o.writes| == 4
    && o.writes[0].kind == Patch && o.writes[1].kind == Settings
    && o.writes[2].kind == Model && o.writes[3].kind == Provenance
    && (o.writes[1].status != NotRun ==> o.writes[0].status == Succeeded)
    && (o.writes[2].status != NotRun ==> o.writes[1].status == Succeeded && bindsModel)
    && (o.writes[3].status != NotRun ==> o.writes[1].status == Succeeded && (bindsModel ==> o.writes[2].status == Succeeded))
    && (o.presets == Succeeded ==>
          o.writes[0].status == o.writes[1].status == o.writes[3].status == Succeeded &&
          (o.writes[2].status == Succeeded <==> bindsModel))
    && (forall i :: 0 <= i < 4 && o.writes[i].status.Failed? ==> o.presets.Failed?)
  }

  ghost predicate Published(o: Outcome, bindsModel: bool) {
    && (exists done :: PackageShape(o, done)) && StageOrder(o) && WriteShape(o, bindsModel)
  }

  /** A status once left never changes again. */
  ghost predicate Kept(before: Status, after: Status) { before != NotRun ==> after == before }

  ghost predicate Evolves(a: Outcome, b: Outcome) {
    && Kept(a.spaceCreate, b.spaceCreate) && Kept(a.packages, b.packages)
    && Kept(a.presets, b.presets) && Kept(a.start, b.start)
    && (a.spaceId.Some? ==> b.spaceId == a.spaceId)
    && a.installed <= b.installed
    && (a.packageResults != [] ==> |a.packageResults| == |b.packageResults|)
    && (forall i :: 0 <= i < |a.packageResults| && i < |b.packageResults| ==>
          a.packageResults[i].name == b.packageResults[i].name &&
          a.packageResults[i].version == b.packageResults[i].version &&
          Kept(a.packageResults[i].status, b.packageResults[i].status))
    && |a.writes| == |b.writes|
    && (forall i :: 0 <= i < |a.writes| ==> a.writes[i].kind == b.writes[i].kind && Kept(a.writes[i].status, b.writes[i].status))
  }

  /** A log of published outcomes: each well shaped, each evolving from the one before. */
  ghost predicate GoodLog(log: seq<Outcome>, bindsModel: bool) {
    && (forall i :: 0 <= i < |log| ==> Published(log[i], bindsModel))
    && (forall i :: 0 < i < |log| ==> Evolves(log[i - 1], log[i]))
  }

  ghost predicate LastIs(log: seq<Outcome>, o: Outcome) { log != [] && log[|log| - 1] == o }

  // ---- the outcome a script ends with, in closed form ----

  function Reached(earlier: bool, error: Option<string>): Status {
    if !earlier then NotRun else if error.Some? then Failed(error.value) else Succeeded
  }

  function FirstError(a: Option<string>, b: Option<string>): Option<string> { if a.Some? then a else b }

  function CreationError(s: Script): Option<string> {
    FirstError(FirstError(s.staging, s.validation),
               FirstError(s.creation, if s.created then None else Some(NOT_CREATED)))
  }

  /** How many packages install before the first failure. */
  function InstallCount(installs: seq<Install>): (n: nat)
    ensures n <= |installs|
    ensures forall i :: 0 <= i < n ==> InstallError(installs[i]).None?
    ensures n < |installs| ==> InstallError(installs[n]).Some?
  {
    if installs == [] || InstallError(installs[0]).Some? then 0 else 1 + InstallCount(installs[1..])
  }

  function PackagesError(s: Script): Option<string> {
    var n := InstallCount(s.installs);
    if n < |s.installs| then InstallError(s.installs[n]) else s.composition
  }

  function FinalPackageResults(s: Script): seq<PackageResult>
  {
    var n := InstallCount(s.installs);
    seq(|s.installs|, i requires 0 <= i < |s.installs| =>
      PackageResult(s.installs[i].package.name, s.installs[i].package.version,
                    if CreationError(s).Some? || i > n then NotRun
                    else if i < n then Succeeded else Failed(InstallError(s.installs[n]).value)))
  }

  function FinalInstalled(s: Script): seq<Identity> {
    if CreationError(s).Some? then []
    else
      var n := InstallCount(s.installs);
      seq(n, i requires 0 <= i < n => s.installs[i].archive.value)
  }

  /** The errors of the preset steps in their order; the model step only with a model. */
  function ModelError(s: Script): Option<string> { if s.bindsModel then s.model else None }

  function FinalWrites(s: Script): seq<WriteResult> {
    var run := CreationError(s).None? && PackagesError(s).None? && s.aborted.None?;
    var patched := run && s.patch.None?;
    var configured := patched && s.settings.None?;
    var bound := configured && ModelError(s).None?;
    [WriteResult(Patch, Reached(run, s.patch)),
     WriteResult(Settings, Reached(patched, s.settings)),
     WriteResult(Model, if s.bindsModel then Reached(configured, s.model) else NotRun),
     WriteResult(Provenance, Reached(bound && s.compose.None?, s.provenance))]
  }

  function PresetsError(s: Script): Option<string> {
    FirstError(s.aborted, FirstError(s.patch, FirstError(s.settings, FirstError(ModelError(s),
      FirstError(s.compose, FirstError(s.provenance, s.host))))))
  }

  function Final(space: string, s: Script): Outcome
  {
    var created := CreationError(s).None?;
    Outcome(
      if s.staging.None? && s.validation.None? && s.created then Some(space) else None,
      Reached(true, CreationError(s)),
      Reached(created, PackagesError(s)),
      Reached(created && PackagesError(s).None?, PresetsError(s)),
      NotRun,
      FinalInstalled(s),
      if s.staging.Some? then [] else FinalPackageResults(s),
      FinalWrites(s))
  }

  // ---- the steps of the pipeline keep every published outcome well shaped ----

  ghost predicate Shaped(o: Outcome, done: nat, bindsModel: bool) {
    PackageShape(o, done) && StageOrder(o) && WriteShape(o, bindsModel)
  }

  /** A step to `b`, ready to be published after `a`. */
  ghost predicate Step(a: Outcome, b: Outcome, done: nat, bindsModel: bool) {
    Shaped(b, done, bindsModel) && Evolves(a, b)
  }

  function WithPackage(o: Outcome, i: nat, status: Status): Outcome
    requires i < |o.packageResults|
  {
    o.(packageResults := o.packageResults[i := o.packageResults[i].(status := status)])
  }

  function WithWrite(o: Outcome, i: nat, status: Status): Outcome
    requires i < |o.writes|
  {
    o.(writes := o.writes[i := o.writes[i].(status := status)])
  }

  lemma PackageSucceeds(o: Outcome, i: nat, identity: Identity, bindsModel: bool)
    requires Shaped(o, i, bindsModel) && o.spaceCreate == Succeeded && o.packages == NotRun && o.presets == NotRun
    requires i < |o.packageResults| && o.packageResults[i].status == NotRun
    requires i + 1 < |o.packageResults| ==> o.packageResults[i + 1].status == NotRun
    requires Names(identity, o.packageResults[i].name, o.packageResults[i].version)
    ensures Step(o, WithPackage(o, i, Succeeded).(installed := o.installed + [identity]), i + 1, bindsModel)
  {
  }

  lemma PackagesSucceed(o: Outcome, bindsModel: bool)
    requires Shaped(o, |o.packageResults|, bindsModel) && o.spaceCreate == Succeeded && o.packages == NotRun && o.presets == NotRun
    ensures Step(o, o.(packages := Succeeded), |o.packageResults|, bindsModel)
  {
  }

  lemma PackagesFail(o: Outcome, done: nat, error: string, bindsModel: bool)
    requires Shaped(o, done, bindsModel) && o.spaceCreate == Succeeded && o.packages == NotRun && o.presets == NotRun
    requires done < |o.packageResults| ==> o.packageResults[done].status == NotRun
    requires forall i :: 0 <= i < |o.writes| ==> o.writes[i].status == NotRun
    ensures var failed := if done < |o.packageResults| then WithPackage(o, done, Failed(error)) else o;
            Step(o, failed.(packages := Failed(error)), done, bindsModel)
  {
  }

  /** The writes before row `i` have run. */
  ghost predicate WriteReady(o: Outcome, i: nat, done: nat, bindsModel: bool) {
    && Shaped(o, done, bindsModel) && o.packages == Succeeded && o.presets == NotRun
    && i < 4 && o.writes[i].status == NotRun
    && (i == 1 ==> o.writes[0].status == Succeeded && o.writes[2].status == o.writes[3].status == NotRun)
    && (i == 2 ==> o.writes[1].status == Succeeded && bindsModel && o.writes[3].status == NotRun)
    && (i == 3 ==> o.writes[1].status == Succeeded && (bindsModel ==> o.writes[2].status == Succeeded))
    && (i == 0 ==> o.writes[1].status == o.writes[2].status == o.writes[3].status == NotRun)
  }

  lemma WriteSucceeds(o: Outcome, i: nat, done: nat, bindsModel: bool)
    requires WriteReady(o, i, done, bindsModel)
    ensures Step(o, WithWrite(o, i, Succeeded), done, bindsModel)
  {
  }

  lemma WriteFails(o: Outcome, i: nat, done: nat, error: string, bindsModel: bool)
    requires WriteReady(o, i, done, bindsModel)
    ensures Step(o, WithWrite(o, i, Failed(error)).(presets := Failed(error)), done, bindsModel)
  {
  }

  lemma PresetsEnd(o: Outcome, done: nat, status: Status, bindsModel: bool)
    requires Shaped(o, done, bindsModel) && o.packages == Succeeded && o.presets == NotRun
    requires status == Succeeded ==> o.writes[3].status == Succeeded && o.writes[0].status == Succeeded
    ensures Step(o, o.(presets := status), done, bindsModel)
  {
  }

  /** The provenance write and the end of the stage are published as one. */
  lemma ProvenanceThenEnd(o: Outcome, done: nat, status: Status, bindsModel: bool)
    requires WriteReady(o, 3, done, bindsModel) && o.writes[0].status == Succeeded && status != NotRun
    ensures Step(o, WithWrite(o, 3, Succeeded).(presets := status), done, bindsModel)
  {
  }

  /** What `log` becomes when a step is published. */
  lemma StepPublished(log: seq<Outcome>, a: Outcome, b: Outcome, done: nat, bindsModel: bool)
    requires GoodLog(log, bindsModel) && LastIs(log, a) && Step(a, b, done, bindsModel)
    ensures GoodLog(log + [b], bindsModel) && LastIs(log + [b], b)
  {
  }

  // ---- the pipeline ----

  function Planned(s: Script): seq<PackageResult> {
    seq(|s.installs|, i requires 0 <= i < |s.installs| => PackageResult(s.installs[i].package.name, s.installs[i].package.version, NotRun))
  }

  /** The outcome once the space is there. */
  function CreatedOutcome(space: string, s: Script): Outcome {
    EMPTY.(spaceId := Some(space), spaceCreate := Succeeded, packageResults := Planned(s))
  }

  /** The part up to the space: it publishes once, and fails or leaves the space. */
  method CreateSpace(space: string, s: Script) returns (outcome: Outcome, ok: bool)
    ensures ok <==> CreationError(s).None?
    ensures outcome == if ok then CreatedOutcome(space, s) else Final(space, s)
    ensures GoodLog([outcome], s.bindsModel) && Shaped(outcome, 0, s.bindsModel)
  {
    outcome := EMPTY;
    if s.staging.Some? {
      outcome := outcome.(spaceCreate := Failed(s.staging.value));
      NothingRan(outcome, s.bindsModel);
      return outcome, false;
    }
    outcome := outcome.(packageResults := Planned(s));
    var failure := s.validation;
    if failure.None? {
      if s.created {
        outcome := outcome.(spaceId := Some(space));
      }
      failure := s.creation;
      if failure.None? && !s.created {
        failure := Some(NOT_CREATED);
      }
    }
    ok := failure.None?;
    outcome := outcome.(spaceCreate := if ok then Succeeded else Failed(failure.value));
    NothingRan(outcome, s.bindsModel);
    assert !ok ==> outcome.packageResults == FinalPackageResults(s);
  }

  /** Before any package ran an outcome may be published as the first one. */
  lemma NothingRan(o: Outcome, bindsModel: bool)
    requires o.packages == o.presets == o.start == NotRun && o.installed == [] && o.writes == EmptyWrites()
    requires forall i :: 0 <= i < |o.packageResults| ==> o.packageResults[i].status == NotRun
    requires o.spaceCreate == Succeeded ==> o.spaceId.Some?
    ensures GoodLog([o], bindsModel) && LastIs([o], o) && Shaped(o, 0, bindsModel)
  {
    assert PackageShape(o, 0);
  }

  /** How often the preset stage publishes: after each write, and at its end. */
  function PresetCount(s: Script): nat {
    if s.aborted.Some? || s.patch.Some? then 1
    else if s.settings.Some? then 2
    else if ModelError(s).Some? then 3
    else 4
  }

  /** How often the whole pipeline publishes: once for the space, once for every
      installed package, at the end of each later stage and on return. */
  function PublishCount(s: Script): nat {
    if CreationError(s).Some? then 1
    else if PackagesError(s).Some? then 2 + InstallCount(s.installs)
    else 2 + |s.installs| + PresetCount(s) + if PresetsError(s).None? then 1 else 0
  }

  /** From one place of the log on, n publications, each with one package more installed. */
  ghost predicate OnePerPackage(log: seq<Outcome>, from: nat, n: nat) {
    from + n <= |log| && forall j :: from <= j < from + n ==> |log[j].installed| == j - from + 1
  }

  lemma OnePerPackageKept(log: seq<Outcome>, longer: seq<Outcome>, from: nat, n: nat)
    requires OnePerPackage(log, from, n) && log <= longer
    ensures OnePerPackage(longer, from, n)
  {
  }

  /** `apply`: the log of everything published, and whether it returned normally. */
  method Apply(space: string, s: Script) returns (log: seq<Outcome>, ok: bool)
    ensures GoodLog(log, s.bindsModel)
    ensures LastIs(log, Final(space, s))
    ensures ok <==> CreationError(s).None? && PackagesError(s).None? && PresetsError(s).None?
    ensures |log| == PublishCount(s)
    ensures CreationError(s).None? ==> OnePerPackage(log, 1, InstallCount(s.installs))
  {
    var outcome;
    outcome, ok := CreateSpace(space, s);
    log := [outcome];
    if !ok {
      return;
    }
    outcome, log, ok := InstallPackages(outcome, log, s);
    if !ok {
      return;
    }
    ghost var packaged := log;
    outcome, log, ok := WritePresets(outcome, log, |s.installs|, s);
    OnePerPackageKept(packaged, log, 1, InstallCount(s.installs));
    if !ok {
      return;
    }
    StepPublished(log, outcome, outcome, |s.installs|, s.bindsModel);
    OnePerPackageKept(log, log + [outcome], 1, InstallCount(s.installs));
    log := log + [outcome];
  }

  method InstallPackages(start: Outcome, before: seq<Outcome>, s: Script)
    returns (outcome: Outcome, log: seq<Outcome>, ok: bool)
    requires GoodLog(before, s.bindsModel) && LastIs(before, start)
    requires start.spaceId.Some? && start == CreatedOutcome(start.spaceId.value, s)
    requires Shaped(start, 0, s.bindsModel) && CreationError(s).None?
    ensures GoodLog(log, s.bindsModel) && LastIs(log, outcome)
    ensures ok <==> PackagesError(s).None?
    ensures outcome == start.(packages := Reached(true, PackagesError(s)), installed := FinalInstalled(s),
                              packageResults := FinalPackageResults(s))
    ensures |log| == |before| + InstallCount(s.installs) + 1 && before <= log
    ensures OnePerPackage(log, |before|, InstallCount(s.installs))
    ensures ok ==> Shaped(outcome, |s.installs|, s.bindsModel)
  {
    var index := 0;
    outcome, log := start, before;
    assert outcome.packageResults == ResultsUpTo(s, 0);
    while index < |s.installs|
      invariant 0 <= index <= InstallCount(s.installs) && |log| == |before| + index && before <= log
      invariant OnePerPackage(log, |before|, index)
      invariant outcome == start.(installed := InstalledUpTo(s, index), packageResults := ResultsUpTo(s, index))
      invariant Shaped(outcome, index, s.bindsModel)
      invariant GoodLog(log, s.bindsModel) && LastIs(log, outcome)
    {
      var installed := InstallPackage(s.installs[index]);
      if installed.Err? {
        break;
      }
      outcome, log := InstallOne(outcome, log, index, installed.value, start, s);
      index := index + 1;
    }
    outcome, log := EndPackages(outcome, log, index, start, s);
    ok := PackagesError(s).None?;
  }

  /** One package: prepare its archive, install it, read back what was installed. */
  method InstallPackage(i: Install) returns (r: Result<Identity, string>)
    ensures r.Err? <==> InstallError(i).Some?
    ensures r.Err? ==> InstallError(i) == Some(r.error)
    ensures r.Ok? <==> i.archive.Ok? && Package(i.archive.value.name, i.archive.value.version) == i.package &&
                       i.failure.None? && i.found == Some(i.package)
    ensures r.Err? ==>
              r.error ==
              if i.archive.Err? then i.archive.error
              else if Package(i.archive.value.name, i.archive.value.version) != i.package then "Package installation failed."
              else if i.failure.Some? then i.failure.value
              else "Installed package identity does not match the prepared archive."
    ensures r.Ok? ==> r == i.archive && i.found == Some(Package(r.value.name, r.value.version))
  {
    if i.archive.Err? {
      return i.archive;
    }
    var prepared := i.archive.value;
    if prepared.name != i.package.name || prepared.version != i.package.version {
      return Err(PACKAGE_FAILED);
    }
    if i.failure.Some? {
      return Err(i.failure.value);
    }
    var actual := i.found;
    if actual.None? || actual.value.name != prepared.name || actual.value.version != prepared.version {
      return Err(NOT_THE_ARCHIVE);
    }
    return Ok(prepared);
  }

  method InstallOne(o: Outcome, log: seq<Outcome>, index: nat, identity: Identity, start: Outcome, s: Script)
    returns (next: Outcome, longer: seq<Outcome>)
    requires index < InstallCount(s.installs) && Ok(identity) == s.installs[index].archive
    requires o == start.(installed := InstalledUpTo(s, index), packageResults := ResultsUpTo(s, index))
    requires start.spaceCreate == Succeeded && start.packages == NotRun && start.presets == NotRun
    requires Shaped(o, index, s.bindsModel) && GoodLog(log, s.bindsModel) && LastIs(log, o)
    ensures next == start.(installed := InstalledUpTo(s, index + 1), packageResults := ResultsUpTo(s, index + 1))
    ensures longer == log + [next] && GoodLog(longer, s.bindsModel) && LastIs(longer, next)
    ensures Shaped(next, index + 1, s.bindsModel)
  {
    next := WithPackage(o, index, Succeeded).(installed := o.installed + [identity]);
    PackageSucceeds(o, index, identity, s.bindsModel);
    StepPublished(log, o, next, index + 1, s.bindsModel);
    assert next.packageResults == ResultsUpTo(s, index + 1);
    assert next.installed == InstalledUpTo(s, index + 1);
    longer := log + [next];
  }

  method EndPackages(o: Outcome, log: seq<Outcome>, index: nat, start: Outcome, s: Script)
    returns (end: Outcome, longer: seq<Outcome>)
    requires index == InstallCount(s.installs) && CreationError(s).None?
    requires o == start.(installed := InstalledUpTo(s, index), packageResults := ResultsUpTo(s, index))
    requires start.spaceCreate == Succeeded && start.packages == NotRun && start.presets == NotRun
    requires start.writes == EmptyWrites()
    requires Shaped(o, index, s.bindsModel) && GoodLog(log, s.bindsModel) && LastIs(log, o)
    ensures end == start.(packages := Reached(true, PackagesError(s)), installed := FinalInstalled(s),
                          packageResults := FinalPackageResults(s))
    ensures longer == log + [end] && GoodLog(longer, s.bindsModel) && LastIs(longer, end)
    ensures Shaped(end, index, s.bindsModel)
  {
    var failure := if index < |s.installs| then InstallError(s.installs[index]) else s.composition;
    if failure.None? {
      end := o.(packages := Succeeded);
      PackagesSucceed(o, s.bindsModel);
    } else {
      var failed := if index < |s.installs| then WithPackage(o, index, Failed(failure.value)) else o;
      end := failed.(packages := Failed(failure.value));
      PackagesFail(o, index, failure.value, s.bindsModel);
    }
    assert end.packageResults == FinalPackageResults(s);
    assert end.installed == FinalInstalled(s);
    StepPublished(log, o, end, index, s.bindsModel);
    longer := log + [end];
  }

  function InstalledUpTo(s: Script, n: nat): seq<Identity>
    requires n <= InstallCount(s.installs)
  {
    seq(n, i requires 0 <= i < n => s.installs[i].archive.value)
  }

  function ResultsUpTo(s: Script, n: nat): seq<PackageResult> {
    seq(|s.installs|, i requires 0 <= i < |s.installs| =>
      PackageResult(s.installs[i].package.name, s.installs[i].package.version, if i < n then Succeeded else NotRun))
  }

  method WritePresets(start: Outcome, before: seq<Outcome>, done: nat, s: Script)
    returns (outcome: Outcome, log: seq<Outcome>, ok: bool)
    requires GoodLog(before, s.bindsModel) && LastIs(before, start) && Shaped(start, done, s.bindsModel)
    requires start.packages == Succeeded && start.presets == NotRun
    requires start.writes == EmptyWrites() && CreationError(s).None? && PackagesError(s).None?
    ensures GoodLog(log, s.bindsModel) && LastIs(log, outcome)
    ensures ok <==> PresetsError(s).None?
    ensures outcome == start.(presets := Reached(true, PresetsError(s)), writes := FinalWrites(s))
    ensures |log| == |before| + PresetCount(s) && before <= log
    ensures ok ==> Shaped(outcome, done, s.bindsModel)
  {
    outcome, log := start, before;
    if s.aborted.Some? {
      outcome, log := EndPresets(outcome, log, done, Failed(s.aborted.value), s.bindsModel);
      assert outcome.writes == FinalWrites(s);
      return outcome, log, false;
    }
    outcome, log, ok := WriteFiles(start, before, done, s);
    if !ok {
      return;
    }
    outcome, log, ok := BindModel(outcome, log, start, done, s);
    if !ok {
      return;
    }
    outcome, log, ok := FinishPresets(outcome, log, done, s);
    assert outcome.writes == FinalWrites(s);
  }

  /** The patch, then the settings. */
  method WriteFiles(start: Outcome, before: seq<Outcome>, done: nat, s: Script)
    returns (outcome: Outcome, log: seq<Outcome>, ok: bool)
    requires GoodLog(before, s.bindsModel) && LastIs(before, start) && Shaped(start, done, s.bindsModel)
    requires start.packages == Succeeded && start.presets == NotRun && start.writes == EmptyWrites()
    requires CreationError(s).None? && PackagesError(s).None? && s.aborted.None?
    ensures ok <==> s.patch.None? && s.settings.None?
    ensures ok ==> outcome == start.(writes := PatchedWrites())
    ensures !ok ==> outcome == start.(presets := Reached(true, PresetsError(s)), writes := FinalWrites(s))
    ensures |log| == |before| + (if s.patch.Some? then 1 else 2) && before <= log
    ensures GoodLog(log, s.bindsModel) && LastIs(log, outcome) && Shaped(outcome, done, s.bindsModel)
  {
    outcome, log, ok := Write(start, before, 0, done, s.patch, s.bindsModel);
    if ok {
      outcome, log, ok := Write(outcome, log, 1, done, s.settings, s.bindsModel);
    }
    assert outcome.writes == if ok then PatchedWrites() else FinalWrites(s);
  }

  /** The model write, when a model is bound; the outcome is published either way. */
  method BindModel(o: Outcome, log: seq<Outcome>, start: Outcome, done: nat, s: Script)
    returns (outcome: Outcome, longer: seq<Outcome>, ok: bool)
    requires GoodLog(log, s.bindsModel) && LastIs(log, o) && Shaped(o, done, s.bindsModel)
    requires start.packages == Succeeded && start.presets == NotRun && start.writes == EmptyWrites()
    requires o == start.(writes := PatchedWrites()) && CreationError(s).None? && PackagesError(s).None?
    requires s.aborted.None? && s.patch.None? && s.settings.None?
    ensures ok <==> ModelError(s).None?
    ensures ok ==> outcome == start.(writes := BoundWrites(s)) && WriteReady(outcome, 3, done, s.bindsModel)
    ensures !ok ==> outcome == start.(presets := Reached(true, PresetsError(s)), writes := FinalWrites(s))
    ensures longer == log + [outcome] && GoodLog(longer, s.bindsModel) && LastIs(longer, outcome)
  {
    if s.bindsModel {
      outcome, longer, ok := Write(o, log, 2, done, s.model, s.bindsModel);
      assert outcome.writes == if ok then BoundWrites(s) else FinalWrites(s);
    } else {
      StepPublished(log, o, o, done, s.bindsModel);
      outcome, longer, ok := o, log + [o], true;
      assert outcome.writes == BoundWrites(s);
    }
  }

  function PatchedWrites(): seq<WriteResult> {
    [WriteResult(Patch, Succeeded), WriteResult(Settings, Succeeded), WriteResult(Model, NotRun), WriteResult(Provenance, NotRun)]
  }

  function BoundWrites(s: Script): seq<WriteResult> {
    [WriteResult(Patch, Succeeded), WriteResult(Settings, Succeeded),
     WriteResult(Model, if s.bindsModel then Succeeded else NotRun), WriteResult(Provenance, NotRun)]
  }

  /** The late composition check, the provenance write and the host read end the stage. */
  method FinishPresets(o: Outcome, log: seq<Outcome>, done: nat, s: Script)
    returns (outcome: Outcome, longer: seq<Outcome>, ok: bool)
    requires GoodLog(log, s.bindsModel) && LastIs(log, o) && WriteReady(o, 3, done, s.bindsModel)
    requires o.writes[0].status == Succeeded
    ensures ok <==> s.compose.None? && s.provenance.None? && s.host.None?
    ensures outcome == WithWrite(o, 3, Reached(s.compose.None?, s.provenance))
                       .(presets := Reached(true, FirstError(s.compose, FirstError(s.provenance, s.host))))
    ensures longer == log + [outcome] && GoodLog(longer, s.bindsModel) && LastIs(longer, outcome)
    ensures ok ==> Shaped(outcome, done, s.bindsModel)
  {
    if s.compose.Some? {
      outcome, longer := EndPresets(o, log, done, Failed(s.compose.value), s.bindsModel);
      assert WithWrite(o, 3, NotRun).writes == o.writes;
      return outcome, longer, false;
    }
    if s.provenance.Some? {
      WriteFails(o, 3, done, s.provenance.value, s.bindsModel);
      outcome := WithWrite(o, 3, Failed(s.provenance.value)).(presets := Failed(s.provenance.value));
    } else {
      var status := if s.host.Some? then Failed(s.host.value) else Succeeded;
      ProvenanceThenEnd(o, done, status, s.bindsModel);
      outcome := WithWrite(o, 3, Succeeded).(presets := status);
    }
    StepPublished(log, o, outcome, done, s.bindsModel);
    longer, ok := log + [outcome], s.provenance.None? && s.host.None?;
  }

  method EndPresets(o: Outcome, log: seq<Outcome>, done: nat, status: Status, bindsModel: bool)
    returns (outcome: Outcome, longer: seq<Outcome>)
    requires GoodLog(log, bindsModel) && LastIs(log, o) && Shaped(o, done, bindsModel)
    requires o.packages == Succeeded && o.presets == NotRun && status.Failed?
    ensures outcome == o.(presets := status) && longer == log + [outcome]
    ensures GoodLog(longer, bindsModel) && LastIs(longer, outcome)
  {
    outcome := o.(presets := status);
    PresetsEnd(o, done, status, bindsModel);
    StepPublished(log, o, outcome, done, bindsModel);
    longer := log + [outcome];
  }

  /** One write of the preset stage: on failure its row and the stage fail. */
  method Write(o: Outcome, log: seq<Outcome>, i: nat, done: nat, error: Option<string>, bindsModel: bool)
    returns (outcome: Outcome, longer: seq<Outcome>, ok: bool)
    requires GoodLog(log, bindsModel) && LastIs(log, o) && WriteReady(o, i, done, bindsModel)
    ensures ok <==> error.None?
    ensures outcome == if ok then WithWrite(o, i, Succeeded)
                       else WithWrite(o, i, Failed(error.value)).(presets := Failed(error.value))
    ensures longer == log + [outcome] && GoodLog(longer, bindsModel) && LastIs(longer, outcome)
    ensures Shaped(outcome, done, bindsModel)
  {
    if error.None? {
      WriteSucceeds(o, i, done, bindsModel);
      outcome := WithWrite(o, i, Succeeded);
    } else {
      WriteFails(o, i, done, error.value, bindsModel);
      outcome := WithWrite(o, i, Failed(error.value)).(presets := Failed(error.value));
    }
    StepPublished(log, o, outcome, done, bindsModel);
    longer, ok := log + [outcome], error.None?;
  }

  // ---- the last outcome, from the steps in their order ----

  /** Every step that can fail, in the order they run: four up to the space, one for each
      package, and eight after them. */
  function Steps(s: Script): (steps: seq<Option<string>>)
    ensures |steps| == |s.installs| + 12
  {
    [s.staging, s.validation, s.creation, if s.created then None else Some("The space was not created.")]
    + seq(|s.installs|, i requires 0 <= i < |s.installs| => InstallError(s.installs[i]))
    + [s.composition, s.aborted, s.patch, s.settings, if s.bindsModel then s.model else None,
       s.compose, s.provenance, s.host]
  }

  /** The first step that fails, or the number of steps. */
  function First(steps: seq<Option<string>>): (f: nat)
    ensures f <= |steps| && (forall k :: 0 <= k < f ==> steps[k].None?) && (f < |steps| ==> steps[f].Some?)
  {
    if steps == [] || steps[0].Some? then 0 else 1 + First(steps[1..])
  }

  /** What is reported of the steps from one to another: they did not run after an earlier
      failure, failed with the first failure among them, or all succeeded. */
  function Reported(steps: seq<Option<string>>, from: nat, to: nat): Status {
    var f := First(steps);
    if f < from then NotRun else if f < to && f < |steps| then Failed(steps[f].value) else Succeeded
  }

  lemma StepsAt(s: Script)
    ensures var t, n := Steps(s), |s.installs|;
            && t[0] == s.staging && t[1] == s.validation && t[2] == s.creation
            && t[3] == (if s.created then None else Some(NOT_CREATED))
            && (forall i :: 0 <= i < n ==> t[4 + i] == InstallError(s.installs[i]))
            && t[n + 4] == s.composition && t[n + 5] == s.aborted && t[n + 6] == s.patch && t[n + 7] == s.settings
            && t[n + 8] == ModelError(s) && t[n + 9] == s.compose && t[n + 10] == s.provenance && t[n + 11] == s.host
  {
  }

  /** Where the first failure lies, for each part of the run. */
  lemma FirstByPart(s: Script)
    ensures var f, n := First(Steps(s)), |s.installs|;
            && (CreationError(s).Some? <==> f < 4)
            && (f < 4 ==> CreationError(s) == Steps(s)[f])
            && (f >= 4 ==> InstallCount(s.installs) == if f < n + 4 then f - 4 else n)
  {
    StepsAt(s);
    var f, n, c := First(Steps(s)), |s.installs|, InstallCount(s.installs);
    if f >= 4 {
      if c < n {
        assert Steps(s)[4 + c].Some?;
      }
      if f < n + 4 {
        assert InstallError(s.installs[f - 4]).Some?;
      }
    }
  }

  lemma LaterParts(s: Script)
    requires First(Steps(s)) >= 4
    ensures var f, n := First(Steps(s)), |s.installs|;
            && (PackagesError(s).Some? <==> f < n + 5)
            && (f < n + 5 ==> PackagesError(s) == Steps(s)[f])
            && (f >= n + 5 ==> (PresetsError(s).Some? <==> f < n + 12))
            && (n + 5 <= f < n + 12 ==> PresetsError(s) == Steps(s)[f])
  {
    StepsAt(s);
    FirstByPart(s);
  }

  /** Of the stages: the first step that fails, in the one order of all steps, decides
      which stage failed and why, what ran before it and what did not run. */
  lemma StagesBySteps(space: string, s: Script)
    ensures var o, t, n := Final(space, s), Steps(s), |s.installs|;
            && o.spaceCreate == Reported(t, 0, 4)
            && o.packages == Reported(t, 4, n + 5)
            && o.presets == Reported(t, n + 5, n + 12)
            && o.start == NotRun
            && (o.spaceId == Some(space) <==> s.staging.None? && s.validation.None? && s.created)
            && (o.spaceId.Some? ==> o.spaceId == Some(space))
  {
    StepsAt(s);
    FirstByPart(s);
    if First(Steps(s)) >= 4 {
      LaterParts(s);
    }
  }

  /** Of the package rows, and of what is installed. */
  lemma RowsBySteps(space: string, s: Script)
    ensures var o, t, n := Final(space, s), Steps(s), |s.installs|;
            && (s.staging.Some? ==> o.packageResults == [] && o.installed == [])
            && (s.staging.None? ==> |o.packageResults| == n && forall i :: 0 <= i < n ==>
                  o.packageResults[i] == PackageResult(s.installs[i].package.name, s.installs[i].package.version,
                                                       Reported(t, i + 4, i + 5)))
  {
    StepsAt(s);
    FirstByPart(s);
    if s.staging.None? {
      var rows := FinalPackageResults(s);
      forall i | 0 <= i < |s.installs| ensures rows[i].status == Reported(Steps(s), i + 4, i + 5) {
        RowStatus(s, i);
      }
    }
  }

  lemma RowStatus(s: Script, i: nat)
    requires i < |s.installs|
    ensures FinalPackageResults(s)[i].status == Reported(Steps(s), i + 4, i + 5)
  {
    StepsAt(s);
    FirstByPart(s);
  }

  lemma InstalledBySteps(space: string, s: Script)
    ensures var o, t, n := Final(space, s), Steps(s), |s.installs|;
            && |o.installed| == (if First(t) < 4 then 0 else if First(t) < n + 4 then First(t) - 4 else n)
            && forall i :: 0 <= i < |o.installed| ==> Ok(o.installed[i]) == s.installs[i].archive
  {
    StepsAt(s);
    FirstByPart(s);
  }

  /** Of the writes: the model's only where a model is bound. */
  lemma WritesBySteps(space: string, s: Script)
    ensures var o, t, n := Final(space, s), Steps(s), |s.installs|;
            o.writes == [WriteResult(Patch, Reported(t, n + 6, n + 7)), WriteResult(Settings, Reported(t, n + 7, n + 8)),
                         WriteResult(Model, if s.bindsModel then Reported(t, n + 8, n + 9) else NotRun),
                         WriteResult(Provenance, Reported(t, n + 10, n + 11))]
  {
    StepsAt(s);
    FirstByPart(s);
    if First(Steps(s)) >= 4 {
      LaterParts(s);
    }
  }

  /** And of the number of publications: one for the space, one for each package that
      installs, one for the end of that stage, one for each write, and one on return. */
  lemma CountBySteps(s: Script)
    ensures var f, n := First(Steps(s)), |s.installs|;
            PublishCount(s) ==
              if f < 4 then 1
              else if f < n + 4 then f - 2
              else if f == n + 4 then n + 2
              else if f < n + 7 then n + 3
              else if f == n + 7 then n + 4
              else if f == n + 8 then n + 5
              else if f < n + 12 then n + 6 else n + 7
  {
    StepsAt(s);
    FirstByPart(s);
    if First(Steps(s)) >= 4 {
      LaterParts(s);
    }
  }

  // ---- a row that is ever published as succeeded did install ----

  lemma {:induction false} RowKept(log: seq<Outcome>, bindsModel: bool, k: nat, i: nat)
    requires GoodLog(log, bindsModel) && k < |log| && i < |log[k].packageResults|
    requires log[k].packageResults[i].status == Succeeded
    ensures var last := log[|log| - 1];
            i < |last.packageResults| && last.packageResults[i].status == Succeeded
    decreases |log| - k
  {
    if k == |log| - 1 {
    } else {
      assert Evolves(log[k], log[k + 1]);
      RowKept(log, bindsModel, k + 1, i);
    }
  }

  /** In no publication is a row succeeded whose archive is another package's, whose
      installation failed, or that was not found in the space afterwards. */
  lemma SucceededDidInstall(space: string, s: Script, log: seq<Outcome>, k: nat, i: nat)
    requires GoodLog(log, s.bindsModel) && LastIs(log, Final(space, s))
    requires k < |log| && i < |log[k].packageResults| && log[k].packageResults[i].status == Succeeded
    ensures i < |s.installs| && s.installs[i].failure.None? && s.installs[i].found == Some(s.installs[i].package)
    ensures s.installs[i].archive.Ok? &&
            Package(s.installs[i].archive.value.name, s.installs[i].archive.value.version) == s.installs[i].package
  {
    RowKept(log, s.bindsModel, k, i);
    assert InstallError(s.installs[i]).None?;
  }
}
