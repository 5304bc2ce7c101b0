/** Service defaults and validation: a partition of the configured services. */
module Config {
  import opened Common

  datatype FileKind = Missing | StatError | Regular | Irregular

  /** What stat reports for a (cleaned) path; unknown paths are missing. */
  type FileSystem = map<string, FileKind>

  function Stat(fs: FileSystem, path: string): FileKind { if path in fs then fs[path] else Missing }

  datatype Service = Service(
    name: string, images: seq<string>, silent: bool, composeFiles: seq<string>, composeProject: string,
    containerName: string, envFile: string, autoUpdate: bool, autoHeal: bool,
    cpuThreshold: real, memoryThreshold: real, healthGrace: int, healCooldown: int, healMaxRestarts: int)

  datatype PathProblem = NotAbsolute | Traversal | NotFound | StatFailed | NotRegular

  datatype Reason =
    | NameRequired
    | BadProject
    | ComposeFile(index: nat, problem: PathProblem)
    | EnvFile(problem: PathProblem)
    | ImagesRequired
    | ComposeFilesRequired
    | ProjectRequired
    | HealTargetRequired
    | BadCpuThreshold
    | BadMemoryThreshold
    | NegativeGrace
    | NegativeCooldown
    | NegativeRestarts

  datatype Invalid = Invalid(index: nat, reason: Reason, service: Service)

  predicate ProjectChar(c: char) {
    'a' <= c <= 'z' || 'A' <= c <= 'Z' || '0' <= c <= '9' || c == '-' || c == '_'
  }

  predicate ValidProject(p: string) {
    1 <= |p| <= 64 && forall i :: 0 <= i < |p| ==> ProjectChar(p[i])
  }

  predicate HasTraversal(path: string) {
    exists i :: 0 <= i < |path| - 1 && path[i] == '.' && path[i + 1] == '.'
  }

  function CheckPath(fs: FileSystem, path: string): Option<PathProblem> {
    if path == "" || path[0] != '/' then Some(NotAbsolute)
    else if HasTraversal(path) then Some(Traversal)
    else
      match Stat(fs, path)
      case Missing => Some(NotFound)
      case StatError => Some(StatFailed)
      case Irregular => Some(NotRegular)
      case Regular => None
  }

  /** The first compose file with a problem decides. */
  function CheckFiles(fs: FileSystem, files: seq<string>): Option<Reason> {
    if files == [] then None
    else
      var n := |files| - 1;
      var earlier := CheckFiles(fs, files[..n]);
      if earlier.Some? then earlier
      else
        match CheckPath(fs, files[n])
        case Some(p) => Some(ComposeFile(n, p))
        case None => None
  }

  /** The first rule a service breaks, in the order of the checks. */
  function Problem(fs: FileSystem, svc: Service): Option<Reason> {
    if svc.silent then None
    else if svc.name == "" then Some(NameRequired)
    else if svc.composeProject != "" && !ValidProject(svc.composeProject) then Some(BadProject)
    else if CheckFiles(fs, svc.composeFiles).Some? then CheckFiles(fs, svc.composeFiles)
    else if svc.envFile != "" && CheckPath(fs, svc.envFile).Some? then Some(EnvFile(CheckPath(fs, svc.envFile).value))
    else if svc.autoUpdate && svc.images == [] then Some(ImagesRequired)
    else if svc.autoUpdate && svc.composeFiles == [] then Some(ComposeFilesRequired)
    else if svc.autoUpdate && svc.composeProject == "" then Some(ProjectRequired)
    else if svc.autoHeal && svc.composeProject == "" && svc.containerName == "" then Some(HealTargetRequired)
    else if svc.cpuThreshold < 0.0 || svc.cpuThreshold > 100.0 then Some(BadCpuThreshold)
    else if svc.memoryThreshold < 0.0 || svc.memoryThreshold > 100.0 then Some(BadMemoryThreshold)
    else if svc.healthGrace < 0 then Some(NegativeGrace)
    else if svc.healCooldown < 0 then Some(NegativeCooldown)
    else if svc.healMaxRestarts < 0 then Some(NegativeRestarts)
    else None
  }

  ghost predicate GoodPath(fs: FileSystem, path: string) {
    path != "" && path[0] == '/' && !HasTraversal(path) && Stat(fs, path) == Regular
  }

  /** The whole rule set, in no order. */
  ghost predicate Rules(fs: FileSystem, svc: Service) {
    && svc.name != ""
    && (svc.composeProject != "" ==> ValidProject(svc.composeProject))
    && (forall i :: 0 <= i < |svc.composeFiles| ==> GoodPath(fs, svc.composeFiles[i]))
    && (svc.envFile != "" ==> GoodPath(fs, svc.envFile))
    && (svc.autoUpdate ==> svc.images != [] && svc.composeFiles != [] && svc.composeProject != "")
    && (svc.autoHeal ==> svc.composeProject != "" || svc.containerName != "")
    && 0.0 <= svc.cpuThreshold <= 100.0 && 0.0 <= svc.memoryThreshold <= 100.0
    && svc.healthGrace >= 0 && svc.healCooldown >= 0 && svc.healMaxRestarts >= 0
  }

  lemma {:induction false} FilesGood(fs: FileSystem, files: seq<string>)
    ensures CheckFiles(fs, files).None? <==> forall i :: 0 <= i < |files| ==> GoodPath(fs, files[i])
    ensures CheckFiles(fs, files).Some? ==> CheckFiles(fs, files).value.ComposeFile?
  {
    if files != [] {
      var n := |files| - 1;
      FilesGood(fs, files[..n]);
      assert forall i :: 0 <= i < n ==> files[..n][i] == files[i];
    }
  }

  /** The service breaks the rule that the reason names. */
  ghost predicate Breaks(fs: FileSystem, svc: Service, r: Reason) {
    match r
    case NameRequired => svc.name == ""
    case BadProject => svc.composeProject != "" && !ValidProject(svc.composeProject)
    case ComposeFile(i, p) => i < |svc.composeFiles| && CheckPath(fs, svc.composeFiles[i]) == Some(p)
    case EnvFile(p) => svc.envFile != "" && CheckPath(fs, svc.envFile) == Some(p)
    case ImagesRequired => svc.autoUpdate && svc.images == []
    case ComposeFilesRequired => svc.autoUpdate && svc.composeFiles == []
    case ProjectRequired => svc.autoUpdate && svc.composeProject == ""
    case HealTargetRequired => svc.autoHeal && svc.composeProject == "" && svc.containerName == ""
    case BadCpuThreshold => !(0.0 <= svc.cpuThreshold <= 100.0)
    case BadMemoryThreshold => !(0.0 <= svc.memoryThreshold <= 100.0)
    case NegativeGrace => svc.healthGrace < 0
    case NegativeCooldown => svc.healCooldown < 0
    case NegativeRestarts => svc.healMaxRestarts < 0
  }

  function Rank(r: Reason): nat {
    match r
    case NameRequired => 0
    case BadProject => 1
    case ComposeFile(_, _) => 2
    case EnvFile(_) => 3
    case ImagesRequired => 4
    case ComposeFilesRequired => 5
    case ProjectRequired => 6
    case HealTargetRequired => 7
    case BadCpuThreshold => 8
    case BadMemoryThreshold => 9
    case NegativeGrace => 10
    case NegativeCooldown => 11
    case NegativeRestarts => 12
  }

  /** Rules are looked at in this order, compose files by position. */
  predicate Before(a: Reason, b: Reason) {
    Rank(a) < Rank(b) || (a.ComposeFile? && b.ComposeFile? && a.index < b.index)
  }

  lemma {:induction false} FirstBadFile(fs: FileSystem, files: seq<string>)
    ensures match CheckFiles(fs, files)
            case None => forall j :: 0 <= j < |files| ==> CheckPath(fs, files[j]).None?
            case Some(r) =>
              r.ComposeFile? && r.index < |files| && CheckPath(fs, files[r.index]) == Some(r.problem)
              && forall j :: 0 <= j < r.index ==> CheckPath(fs, files[j]).None?
  {
    hide CheckPath;
    if files != [] {
      var n := |files| - 1;
      FirstBadFile(fs, files[..n]);
      assert forall j :: 0 <= j < n ==> files[..n][j] == files[j];
    }
  }

  /** The recorded reason is a broken rule, and no rule before it is broken; no reason means no broken rule. */
  lemma FirstRuleIsReported(fs: FileSystem, svc: Service)
    requires !svc.silent
    ensures match Problem(fs, svc)
            case None => forall r :: !Breaks(fs, svc, r)
            case Some(r) => Breaks(fs, svc, r) && forall q :: Before(q, r) ==> !Breaks(fs, svc, q)
  {
    hide CheckPath, CheckFiles, ValidProject;
    FirstBadFile(fs, svc.composeFiles);
  }

  /** A service is passed exactly when it is silent or keeps every rule. */
  lemma PassedIffRules(fs: FileSystem, svc: Service)
    ensures Problem(fs, svc).None? <==> svc.silent || Rules(fs, svc)
  {
    hide HasTraversal, ValidProject;
    FilesGood(fs, svc.composeFiles);
  }

  function ValidOf(fs: FileSystem, services: seq<Service>): seq<Service> {
    if services == [] then []
    else
      var n := |services| - 1;
      ValidOf(fs, services[..n]) + if Problem(fs, services[n]).None? then [services[n]] else []
  }

  function InvalidOf(fs: FileSystem, services: seq<Service>): seq<Invalid> {
    if services == [] then []
    else
      var n := |services| - 1;
      InvalidOf(fs, services[..n]) +
      match Problem(fs, services[n])
      case Some(r) => [Invalid(n, r, services[n])]
      case None => []
  }

  function Defaulted(svc: Service): Service {
    svc.(healthGrace := if svc.healthGrace <= 0 then 60 else svc.healthGrace,
         healCooldown := if svc.healCooldown <= 0 then 300 else svc.healCooldown,
         healMaxRestarts := if svc.healMaxRestarts <= 0 then 3 else svc.healMaxRestarts)
  }

  class Configuration {
    var runtime: string
    var services: array<Service>
    var invalidServices: seq<Invalid>

    constructor (runtime: string, services: array<Service>)
      ensures this.runtime == runtime && this.services == services && invalidServices == []
    {
      this.runtime, this.services, invalidServices := runtime, services, [];
    }

    /** Missing timings are filled in, in place. */
    method SetServiceDefaults()
      modifies services
      ensures forall i :: 0 <= i < services.Length ==> services[i] == Defaulted(old(services[i]))
    {
      var i := 0;
      while i < services.Length
        invariant 0 <= i <= services.Length
        invariant forall k :: 0 <= k < services.Length ==>
            services[k] == if k < i then Defaulted(old(services[k])) else old(services[k])
      {
        var svc := services[i];
        if svc.healthGrace <= 0 { svc := svc.(healthGrace := 60); }
        if svc.healCooldown <= 0 { svc := svc.(healCooldown := 300); }
        if svc.healMaxRestarts <= 0 { svc := svc.(healMaxRestarts := 3); }
        services[i] := svc;
        i := i + 1;
      }
    }

    /** The compose-file loop stops at the first bad file. */
    method CheckComposeFiles(fs: FileSystem, files: seq<string>) returns (bad: Option<Reason>)
      ensures bad == CheckFiles(fs, files)
    {
      bad := None;
      var j := 0;
      while j < |files|
        invariant 0 <= j <= |files| && bad.None?
        invariant CheckFiles(fs, files[..j]).None?
      {
        assert files[..j + 1][..j] == files[..j];
        var p := CheckPath(fs, files[j]);
        if p.Some? {
          FirstBadFileDecides(fs, files, j + 1);
          return Some(ComposeFile(j, p.value));
        }
        j := j + 1;
      }
      assert files[..j] == files;
    }

    /** Services are replaced by the valid ones; the others are recorded with their index and reason. */
    method ValidateServices(fs: FileSystem) returns (ok: bool)
      modifies this
      ensures ok == (runtime == "docker" || runtime == "podman") && runtime == old(runtime)
      ensures !ok ==> services == old(services) && invalidServices == old(invalidServices)
      ensures ok ==> fresh(services) && services[..] == ValidOf(fs, old(services[..]))
      ensures ok ==> invalidServices == InvalidOf(fs, old(services[..]))
    {
      if runtime != "docker" && runtime != "podman" { return false; }
      var valid: seq<Service> := [];
      invalidServices := [];
      var i := 0;
      while i < services.Length
        invariant 0 <= i <= services.Length && services == old(services) && runtime == old(runtime)
        invariant valid == ValidOf(fs, services[..i]) && invalidServices == InvalidOf(fs, services[..i])
      {
        assert services[..i + 1][..i] == services[..i];
        var problem := CheckService(fs, services[i]);
        if problem.Some? {
          invalidServices := invalidServices + [Invalid(i, problem.value, services[i])];
        } else {
          valid := valid + [services[i]];
        }
        i := i + 1;
      }
      assert services[..i] == services[..];
      services := new Service[|valid|](k requires 0 <= k < |valid| => valid[k]);
      return true;
    }

    method CheckService(fs: FileSystem, svc: Service) returns (problem: Option<Reason>)
      ensures problem == Problem(fs, svc)
    {
      if svc.silent { return None; }
      if svc.name == "" { return Some(NameRequired); }
      if svc.composeProject != "" {
        if !ValidProject(svc.composeProject) { return Some(BadProject); }
      }
      var bad := CheckComposeFiles(fs, svc.composeFiles);
      if bad.Some? { return bad; }
      if svc.envFile != "" {
        var p := CheckPath(fs, svc.envFile);
        if p.Some? { return Some(EnvFile(p.value)); }
      }
      if svc.autoUpdate {
        if svc.images == [] { return Some(ImagesRequired); }
        if svc.composeFiles == [] { return Some(ComposeFilesRequired); }
        if svc.composeProject == "" { return Some(ProjectRequired); }
      }
      if svc.autoHeal && svc.composeProject == "" && svc.containerName == "" { return Some(HealTargetRequired); }
      if svc.cpuThreshold < 0.0 || svc.cpuThreshold > 100.0 { return Some(BadCpuThreshold); }
      if svc.memoryThreshold < 0.0 || svc.memoryThreshold > 100.0 { return Some(BadMemoryThreshold); }
      if svc.healthGrace < 0 { return Some(NegativeGrace); }
      if svc.healCooldown < 0 { return Some(NegativeCooldown); }
      if svc.healMaxRestarts < 0 { return Some(NegativeRestarts); }
      return None;
    }
  }

  lemma {:induction false} FirstBadFileDecides(fs: FileSystem, files: seq<string>, k: nat)
    requires k <= |files| && CheckFiles(fs, files[..k]).Some?
    ensures CheckFiles(fs, files) == CheckFiles(fs, files[..k])
    decreases |files|
  {
    if k == |files| {
      assert files[..k] == files;
    } else {
      var n := |files| - 1;
      assert files[..n][..k] == files[..k];
      FirstBadFileDecides(fs, files[..n], k);
    }
  }

  // ---- the partition ----

  /** Put the invalid services back at their indices, filling the rest with the valid ones in order. */
  function Merge(valid: seq<Service>, invalid: seq<Invalid>, n: nat): seq<Service>
    decreases n
  {
    if n == 0 then []
    else if invalid != [] && invalid[|invalid| - 1].index == n - 1 then
      Merge(valid, invalid[..|invalid| - 1], n - 1) + [invalid[|invalid| - 1].service]
    else if valid != [] then Merge(valid[..|valid| - 1], invalid, n - 1) + [valid[|valid| - 1]]
    else []
  }

  lemma {:induction false} IndicesBelow(fs: FileSystem, services: seq<Service>)
    ensures forall k :: 0 <= k < |InvalidOf(fs, services)| ==> InvalidOf(fs, services)[k].index < |services|
  {
    if services != [] { IndicesBelow(fs, services[..|services| - 1]); }
  }

  lemma MergeTakesInvalid(valid: seq<Service>, invalid: seq<Invalid>, v: Invalid)
    ensures Merge(valid, invalid + [v], v.index + 1) == Merge(valid, invalid, v.index) + [v.service]
  {
    assert (invalid + [v])[..|invalid|] == invalid;
  }

  lemma MergeTakesValid(valid: seq<Service>, invalid: seq<Invalid>, svc: Service, n: nat)
    requires forall k :: 0 <= k < |invalid| ==> invalid[k].index < n
    ensures Merge(valid + [svc], invalid, n + 1) == Merge(valid, invalid, n) + [svc]
  {
    assert (valid + [svc])[..|valid|] == valid;
  }

  /** Every service lands exactly once: merging by index gives back the input. */
  lemma {:induction false} ValidationIsPartition(fs: FileSystem, services: seq<Service>)
    ensures Merge(ValidOf(fs, services), InvalidOf(fs, services), |services|) == services
  {
    hide Problem, Merge;
    if services == [] {
      assert Merge([], [], 0) == [] by { MergeNothing(); }
    } else {
      var n := |services| - 1;
      var valid, invalid := ValidOf(fs, services[..n]), InvalidOf(fs, services[..n]);
      ValidationIsPartition(fs, services[..n]);
      assert services == services[..n] + [services[n]] && valid + [] == valid && invalid + [] == invalid;
      match Problem(fs, services[n]) {
        case Some(r) => MergeTakesInvalid(valid, invalid, Invalid(n, r, services[n]));
        case None =>
          IndicesBelow(fs, services[..n]);
          MergeTakesValid(valid, invalid, services[n], n);
      }
    }
  }

  lemma MergeNothing()
    ensures Merge([], [], 0) == []
  {}

  /** Kept services are silent or keep the rules; recorded ones are not silent and break some rule. */
  lemma {:induction false} PartitionFollowsRules(fs: FileSystem, services: seq<Service>)
    ensures forall svc :: svc in ValidOf(fs, services) ==> svc in services && (svc.silent || Rules(fs, svc))
    ensures forall v :: v in InvalidOf(fs, services) ==>
              v.index < |services| && services[v.index] == v.service && !v.service.silent && !Rules(fs, v.service)
  {
    hide Problem, Rules;
    if services != [] {
      var n := |services| - 1;
      PartitionFollowsRules(fs, services[..n]);
      PassedIffRules(fs, services[n]);
      assert forall svc :: svc in services[..n] ==> svc in services;
    }
  }

  /** Validating the kept services again changes nothing and reports nothing. */
  lemma {:induction false} ValidationIsIdempotent(fs: FileSystem, services: seq<Service>)
    requires forall i :: 0 <= i < |services| ==> Problem(fs, services[i]).None?
    ensures ValidOf(fs, services) == services && InvalidOf(fs, services) == []
  {
    hide Problem;
    if services != [] {
      var n := |services| - 1;
      ValidationIsIdempotent(fs, services[..n]);
      assert services == services[..n] + [services[n]];
    }
  }

  lemma {:induction false} ValidHaveNoProblem(fs: FileSystem, services: seq<Service>)
    ensures forall i :: 0 <= i < |ValidOf(fs, services)| ==> Problem(fs, ValidOf(fs, services)[i]).None?
  {
    hide Problem;
    if services != [] { ValidHaveNoProblem(fs, services[..|services| - 1]); }
  }

  lemma RevalidationIsQuiet(fs: FileSystem, services: seq<Service>)
    ensures var valid := ValidOf(fs, services);
            ValidOf(fs, valid) == valid && InvalidOf(fs, valid) == []
  {
    ValidHaveNoProblem(fs, services);
    ValidationIsIdempotent(fs, ValidOf(fs, services));
  }

  /** Once defaults are applied the three timing checks can no longer be the reason. */
  lemma DefaultsSettleTimings(fs: FileSystem, svc: Service)
    ensures var p := Problem(fs, Defaulted(svc));
            p != Some(NegativeGrace) && p != Some(NegativeCooldown) && p != Some(NegativeRestarts)
  {
    hide HasTraversal, ValidProject;
    FilesGood(fs, svc.composeFiles);
  }

  // ---- defaults and paths, spelled out ----

  /** Timings that are not positive become 60, 300 and 3; positive ones and everything else stay. */
  lemma DefaultsSpelledOut(svc: Service)
    ensures var d := Defaulted(svc);
            && d.healthGrace == (if svc.healthGrace > 0 then svc.healthGrace else 60)
            && d.healCooldown == (if svc.healCooldown > 0 then svc.healCooldown else 300)
            && d.healMaxRestarts == (if svc.healMaxRestarts > 0 then svc.healMaxRestarts else 3)
            && svc == d.(healthGrace := svc.healthGrace, healCooldown := svc.healCooldown,
                         healMaxRestarts := svc.healMaxRestarts)
            && Defaulted(d) == d
  {}

  /** A project name is accepted exactly when it has 1 to 64 letters, digits, dashes and underscores. */
  lemma ProjectNamesSpelledOut(p: string)
    ensures ValidProject(p) <==>
              && 1 <= |p| <= 64
              && forall c :: c in p && c != '-' && c != '_' ==> 'a' <= c <= 'z' || 'A' <= c <= 'Z' || '0' <= c <= '9'
  {
    assert forall i :: 0 <= i < |p| ==> p[i] in p;
  }

  /** A path is refused for the first of: not absolute, two dots in a row, missing, no status, not a file. */
  lemma PathsSpelledOut(fs: FileSystem, path: string)
    ensures var p := CheckPath(fs, path);
            var absolute := path != "" && path[0] == '/';
            var dotted := exists a: string, b: string :: path == a + ".." + b;
            && (p == Some(NotAbsolute) <==> !absolute)
            && (p == Some(Traversal) <==> absolute && dotted)
            && (p == Some(NotFound) <==> absolute && !dotted && (path !in fs || fs[path] == Missing))
            && (p == Some(StatFailed) <==> absolute && !dotted && path in fs && fs[path] == StatError)
            && (p == Some(NotRegular) <==> absolute && !dotted && path in fs && fs[path] == Irregular)
            && (p == None <==> absolute && !dotted && path in fs && fs[path] == Regular)
  {
    DotsAreTraversal(path);
  }

  lemma DotsAreTraversal(path: string)
    ensures HasTraversal(path) <==> exists a: string, b: string :: path == a + ".." + b
  {
    if HasTraversal(path) {
      var i :| 0 <= i < |path| - 1 && path[i] == '.' && path[i + 1] == '.';
      assert path == path[..i] + ".." + path[i + 2..];
    }
    if a: string, b: string :| path == a + ".." + b {
      assert path[|a|] == '.' && path[|a| + 1] == '.';
    }
  }
}
