/**
 * update.sh: back up, install, verify, roll back. What the network, the archive and the host do is
 * an input; moves, copies and edits of repos.json succeed.
 */
module UpdateScript {
  import opened Basics

  /** What is installed for a component: a binary file, or an agent directory with or without its binary. */
  datatype Files = Files(version: string, binary: bool, bytes: string)

  /** What a release download turns out to be; the files are what unpacking leaves, if anything. */
  datatype Archive = Unavailable | Unpacks(files: Option<Files>)

  datatype Kind = Service | Agent

  const SERVICES := ["evo-king", "evo-gateway"]
  const AGENTS := ["evo-kernel-agent-learning", "evo-kernel-agent-building", "evo-kernel-agent-pre-load",
                   "evo-kernel-agent-evaluation", "evo-kernel-agent-skill-manage", "evo-kernel-agent-update"]

  function KindOf(component: string): (kind: Option<Kind>)
    ensures kind == Some(Service) <==> component in {"evo-king", "evo-gateway"}
    ensures kind == Some(Agent) <==> component in AGENTS
  {
    if component in SERVICES then Some(Service) else if component in AGENTS then Some(Agent) else None
  }

  /** The outcome of the option loop: go on, or leave with an exit code. */
  datatype Parsed = Proceed(keepBackup: bool) | Leave(code: nat)

  const KEEP := "--keep-backup"

  predicate OnlyKeep(flags: seq<string>) {
    forall i :: 0 <= i < |flags| ==> flags[i] == KEEP
  }

  /** The flag at place i is the first that is not --keep-backup. */
  predicate FirstOther(flags: seq<string>, i: int) {
    0 <= i < |flags| && flags[i] != KEEP && OnlyKeep(flags[..i])
  }

  /** The exit code of a flag that is not --keep-backup. */
  function CodeOf(flag: string): (code: nat)
    ensures code == 0 || code == 2
    ensures code == 0 <==> flag in {"--help", "-h"}
  {
    if flag == "--help" || flag == "-h" then 0 else 2
  }

  /** What an outcome means for the flags, without saying how it is found. */
  ghost predicate Meant(flags: seq<string>, p: Parsed) {
    match p
    case Proceed(keep) => OnlyKeep(flags) && (keep <==> flags != [])
    case Leave(code) => exists i :: FirstOther(flags, i) && code == CodeOf(flags[i])
  }

  lemma NoneLater(flags: seq<string>, i: int, j: int)
    requires FirstOther(flags, i) && i < j < |flags|
    ensures !FirstOther(flags, j)
  {
    assert flags[..j][i] == flags[i];
  }

  /** Every list of flags has at most one meaning. */
  lemma OneMeaning(flags: seq<string>, p: Parsed, q: Parsed)
    requires Meant(flags, p) && Meant(flags, q)
    ensures p == q
  {
    if p.Leave? && q.Leave? {
      var i :| FirstOther(flags, i) && p.code == CodeOf(flags[i]);
      var j :| FirstOther(flags, j) && q.code == CodeOf(flags[j]);
      forall k, l | FirstOther(flags, k) && k < l < |flags| ensures !FirstOther(flags, l) { NoneLater(flags, k, l); }
      hide OnlyKeep;
    }
  }

  /** The option loop goes on exactly when every flag is --keep-backup, keeping the backup if there is
      one; otherwise the first other flag decides: 0 for help, 2 for anything else. */
  method ParseOptions(flags: seq<string>) returns (p: Parsed)
    ensures Meant(flags, p)
  {
    var keep := false;
    var i := 0;
    while i < |flags|
      invariant i <= |flags| && OnlyKeep(flags[..i]) && (keep <==> i > 0)
    {
      if flags[i] == KEEP {
        keep := true;
      } else {
        assert FirstOther(flags, i);
        if flags[i] == "--help" || flags[i] == "-h" {
          return Leave(0);
        }
        return Leave(2);
      }
      i := i + 1;
    }
    assert flags[..i] == flags;
    return Proceed(keep);
  }

  /** The files an installation puts in place, if it gets that far. A service is moved out of the
      unpacked archive only if the binary is there; an agent is unpacked where it will live. */
  function Placed(kind: Kind, a: Archive): (files: Option<Files>)
    ensures files.Some? <==> a.Unpacks? && a.files.Some? && (kind != Service || a.files.value.binary)
    ensures files.Some? ==> files == a.files
  {
    match a
    case Unavailable => None
    case Unpacks(files) => if kind == Service && files.Some? && !files.value.binary then None else files
  }

  /** The installation reports success. */
  predicate Installs(kind: Kind, a: Archive): (ok: bool)
    ensures ok <==> a.Unpacks? && a.files.Some? && a.files.value.binary
  {
    Placed(kind, a).Some? && Placed(kind, a).value.binary
  }

  class EvoHome {
    var installed: map<string, Files>
    var backups: map<string, Files>
    /** The installed versions in repos.json, if there is such a file. */
    var repos: Option<map<string, string>>

    constructor (installed: map<string, Files>, backups: map<string, Files>, repos: Option<map<string, string>>)
      ensures this.installed == installed && this.backups == backups && this.repos == repos
    {
      this.installed, this.backups, this.repos := installed, backups, repos;
    }

    /** The manifest names the version of every installed component it lists. */
    predicate Agrees()
      reads this
    {
      repos.Some? ==> forall c :: c in installed && c in repos.value ==> repos.value[c] == installed[c].version
    }

    /** backup_service and backup_agent: an older backup is replaced, but only if there is something
        to back up. */
    method Backup(component: string)
      modifies this`backups
      ensures backups == if component in installed then old(backups)[component := installed[component]]
                         else old(backups)
    {
      if component !in installed { return; }
      if component in backups {
        backups := backups - {component};
      }
      backups := backups[component := installed[component]];
      assert backups == old(backups)[component := installed[component]];
    }

    method Rollback(component: string)
      modifies this`installed, this`backups
      ensures component in old(backups) ==>
        installed == old(installed)[component := old(backups)[component]] && backups == old(backups) - {component}
      ensures component !in old(backups) ==> installed == old(installed) && backups == old(backups)
    {
      if component in backups {
        var files := backups[component];
        installed := installed - {component};
        installed := installed[component := files];
        backups := backups - {component};
        assert installed == old(installed)[component := files];
      }
    }

    method InstallService(component: string, a: Archive) returns (ok: bool)
      modifies this`installed
      ensures ok == Installs(Service, a)
      ensures installed == if Installs(Service, a) then old(installed)[component := a.files.value] else old(installed)
    {
      if a.Unavailable? { return false; }
      if a.files.None? || !a.files.value.binary { return false; }
      installed := installed[component := a.files.value];
      return true;
    }

    method InstallAgent(component: string, a: Archive) returns (ok: bool)
      modifies this`installed
      ensures ok == Installs(Agent, a)
      ensures installed ==
        if a.Unavailable? then old(installed)
        else if a.files.Some? then old(installed)[component := a.files.value]
        else old(installed) - {component}
    {
      if a.Unavailable? { return false; }
      installed := installed - {component};
      if a.files.Some? {
        installed := installed[component := a.files.value];
        assert installed == old(installed)[component := a.files.value];
      }
      return a.files.Some? && a.files.value.binary;
    }

    method UpdateRepos(component: string, version: string)
      modifies this`repos
      ensures repos == if old(repos).Some? then Some(old(repos).value[component := version]) else None
    {
      if repos.Some? {
        repos := Some(repos.value[component := version]);
      }
    }

    method Install(component: string, kind: Kind, a: Archive) returns (ok: bool)
      modifies this`installed
      ensures ok == Installs(kind, a)
      ensures ok ==> installed == old(installed)[component := a.files.value]
      ensures installed - {component} == old(installed) - {component}
      ensures component !in old(installed) ==>
                installed == if Placed(kind, a).Some? then old(installed)[component := Placed(kind, a).value]
                             else old(installed)
    {
      if kind == Service {
        ok := InstallService(component, a);
      } else {
        ok := InstallAgent(component, a);
      }
    }

    /** From the backup on; `works` is the verdict of verify_binary. Success leaves the verified new
        files and their version; failure leaves exactly what was installed before, never an older
        backup, unless nothing was installed: then a stale backup comes back or whatever was put in
        place stays. */
    method Perform(component: string, kind: Kind, version: string, keep: bool, a: Archive, works: Files -> bool)
      returns (code: nat)
      modifies this
      ensures code == if Installs(kind, a) && works(a.files.value) then 0 else 1
      ensures code == 0 ==>
                && installed == old(installed)[component := a.files.value]
                && repos == (if old(repos).Some? then Some(old(repos).value[component := version]) else None)
                && backups == if !keep then old(backups) - {component}
                              else if component !in old(installed) then old(backups)
                              else old(backups)[component := old(installed)[component]]
      ensures code == 1 ==> repos == old(repos) && backups == old(backups) - {component}
      ensures code == 1 && component in old(installed) ==> installed == old(installed)
      ensures code == 1 && component !in old(installed) ==>
                installed == if component in old(backups) then old(installed)[component := old(backups)[component]]
                             else if Placed(kind, a).Some? then old(installed)[component := Placed(kind, a).value]
                             else old(installed)
    {
      Backup(component);
      var ok := Install(component, kind, a);
      if !ok || !works(installed[component]) {
        hide Placed, Installs;
        if component in old(installed) { PutBack(installed, old(installed), component); }
        Rollback(component);
        return 1;
      }
      UpdateRepos(component, version);
      if !keep && component in backups {
        backups := backups - {component};
      }
      return 0;
    }

    /** The script's main function. */
    method RunScript(r: Invocation) returns (code: nat)
      modifies this
      ensures Quits(r) ==> installed == old(installed) && backups == old(backups) && repos == old(repos)
      ensures Quits(r) ==> QuitCode(r, code)
      ensures !Quits(r) ==> code <= 1
      ensures !Quits(r) && code == 0 ==>
                && Installs(KindOf(r.args[0]).value, r.archive) && r.works(r.archive.files.value)
                && installed == old(installed)[r.args[0] := r.archive.files.value]
                && repos == if old(repos).Some? then Some(old(repos).value[r.args[0] := r.args[1]]) else None
      ensures !Quits(r) && code == 0 ==>
                var c := r.args[0];
                backups == if r.args[2..] == [] then old(backups) - {c}
                           else if c in old(installed) then old(backups)[c := old(installed)[c]]
                           else old(backups)
      ensures code == 1 ==> repos == old(repos)
      ensures !Quits(r) && code == 1 ==> backups == old(backups) - {r.args[0]}
      ensures !Quits(r) && code == 1 ==>
                (installed == old(installed) <==>
                 || r.args[0] in old(installed)
                 || (r.args[0] !in old(backups) && Placed(KindOf(r.args[0]).value, r.archive).None?))
    {
      if |r.args| < 2 { return 2; }
      var p := ParseOptions(r.args[2..]);
      if p.Leave? { return p.code; }
      var kind := KindOf(r.args[0]);
      if kind.None? { return 2; }
      if !r.homeExists { return 1; }
      if !r.platformKnown { return 2; }
      hide KindOf, Installs, Placed;
      code := Perform(r.args[0], kind.value, r.args[1], p.keepBackup, r.archive, r.works);
    }

    /** Any sequence of updates of installed components, whatever fails on the way, leaves the same
        components installed and the manifest in agreement with them. */
    method RunEach(rs: seq<Invocation>)
      requires Agrees()
      requires forall i :: 0 <= i < |rs| ==> Genuine(rs[i]) && (|rs[i].args| > 0 ==> rs[i].args[0] in installed)
      modifies this
      ensures Agrees() && installed.Keys == old(installed.Keys)
    {
      for i := 0 to |rs|
        invariant Agrees() && installed.Keys == old(installed.Keys)
      {
        var before := installed;
        var code := RunScript(rs[i]);
        hide Installs, KindOf, OnlyKeep, QuitCode;
        assert installed.Keys == before.Keys;
      }
    }
  }

  lemma PutBack(now: map<string, Files>, before: map<string, Files>, c: string)
    requires now - {c} == before - {c} && c in before
    ensures now[c := before[c]] == before
  {
    forall k | k != c ensures (k in now <==> k in before) && (k in now ==> now[k] == before[k]) {
      assert k in now <==> k in now - {c};
      assert k in before <==> k in before - {c};
      assert k in now ==> (now - {c})[k] == now[k] && (before - {c})[k] == before[k];
    }
  }

  /** One call of the script and what it meets: the environment, the download, the verdicts. */
  datatype Invocation = Invocation(args: seq<string>, homeExists: bool, platformKnown: bool, archive: Archive,
                                   works: Files -> bool)

  /** The call stops before touching anything. */
  predicate Quits(r: Invocation) {
    |r.args| < 2 || !OnlyKeep(r.args[2..]) || KindOf(r.args[0]).None? || !r.homeExists || !r.platformKnown
  }

  /** The exit code of such a call: the first objection decides. */
  ghost predicate QuitCode(r: Invocation, code: nat) {
    if |r.args| < 2 then code == 2
    else if !OnlyKeep(r.args[2..]) then exists i :: FirstOther(r.args[2..], i) && code == CodeOf(r.args[2..][i])
    else if KindOf(r.args[0]).None? then code == 2
    else if !r.homeExists then code == 1
    else code == 2
  }

  /** The archive published for a version contains that version. */
  predicate Genuine(r: Invocation) {
    |r.args| >= 2 && r.archive.Unpacks? && r.archive.files.Some? ==> r.archive.files.value.version == r.args[1]
  }
}
