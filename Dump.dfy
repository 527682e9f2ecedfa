// dump.py: the SSH-based dumper's helpers. The application comparator and
// its key wrapper, the icon trimming and process filter of `--list`, the
// table of dumped files `on_message` fills in, the moves `generate_ipa`
// derives from it, the progress bookkeeping and the `.ipa` suffix rule.
module Dump {
  import opened Common

  // ---------------------------------------------------------------------
  // Python string order

  /** Python's `a < b` on `str`: lexicographic by code point, a proper prefix first. */
  predicate LexLess(a: string, b: string)
    decreases |a|
  {
    if a == [] then b != []
    else if b == [] then false
    else if a[0] != b[0] then a[0] < b[0]
    else LexLess(a[1..], b[1..])
  }

  /** Exactly one of `a < b`, `a == b`, `b < a` holds. */
  lemma {:induction false} LexTrichotomy(a: string, b: string)
    ensures a == b ==> !LexLess(a, b) && !LexLess(b, a)
    ensures a != b ==> (LexLess(a, b) <==> !LexLess(b, a))
    decreases |a|
  {
    if a != [] && b != [] && a[0] == b[0] {
      LexTrichotomy(a[1..], b[1..]);
      if a != b {
        assert a == [a[0]] + a[1..] && b == [b[0]] + b[1..];
      }
    }
  }

  lemma {:induction false} LexTransitive(a: string, b: string, c: string)
    requires LexLess(a, b) && LexLess(b, c)
    ensures LexLess(a, c)
    decreases |a|
  {
    if a != [] && a[0] == b[0] && b[0] == c[0] {
      LexTransitive(a[1..], b[1..], c[1..]);
    }
  }

  // ---------------------------------------------------------------------
  // compare_applications and cmp_to_key

  datatype Application = Application(name: string, pid: int) {
    predicate IsRunning() {
      pid != 0
    }
  }

  /** `compare_applications(a, b)`. */
  function CompareApplications(a: Application, b: Application): (r: int)
    ensures r == -1 || r == 0 || r == 1
    ensures a.IsRunning() && !b.IsRunning() ==> r == -1
    ensures !a.IsRunning() && b.IsRunning() ==> r == 1
  {
    if a.IsRunning() == b.IsRunning() then
      if LexLess(b.name, a.name) then 1
      else if LexLess(a.name, b.name) then -1
      else 0
    else if a.IsRunning() then -1
    else 1
  }

  /** Two applications compare equal exactly when both run or both do not, under the same name. */
  lemma CompareZeroIff(a: Application, b: Application)
    ensures CompareApplications(a, b) == 0 <==> a.IsRunning() == b.IsRunning() && a.name == b.name
  {
    LexTrichotomy(a.name, b.name);
  }

  /** Within one running status, applications are ordered by name. */
  lemma CompareByName(a: Application, b: Application)
    requires a.IsRunning() == b.IsRunning()
    ensures CompareApplications(a, b) == -1 <==> LexLess(a.name, b.name)
    ensures CompareApplications(a, b) == 1 <==> LexLess(b.name, a.name)
  {
    LexTrichotomy(a.name, b.name);
  }

  lemma CompareAntisymmetric(a: Application, b: Application)
    ensures CompareApplications(a, b) == -CompareApplications(b, a)
  {
    LexTrichotomy(a.name, b.name);
  }

  lemma CompareTransitive(a: Application, b: Application, c: Application)
    requires CompareApplications(a, b) <= 0 && CompareApplications(b, c) <= 0
    ensures CompareApplications(a, c) <= 0
  {
    LexTrichotomy(a.name, b.name);
    LexTrichotomy(b.name, c.name);
    LexTrichotomy(a.name, c.name);
    if a.IsRunning() == b.IsRunning() && b.IsRunning() == c.IsRunning()
       && LexLess(a.name, b.name) && LexLess(b.name, c.name) {
      LexTransitive(a.name, b.name, c.name);
    }
  }

  lemma CompareStrictTransitive(a: Application, b: Application, c: Application)
    requires CompareApplications(a, b) < 0 && CompareApplications(b, c) < 0
    ensures CompareApplications(a, c) < 0
  {
    LexTrichotomy(a.name, b.name);
    LexTrichotomy(b.name, c.name);
    LexTrichotomy(a.name, c.name);
    if a.IsRunning() == b.IsRunning() && b.IsRunning() == c.IsRunning() {
      LexTransitive(a.name, b.name, c.name);
    }
  }

  /** `K(obj)` of `cmp_to_key(mycmp)`: every rich comparison asks `mycmp`. */
  datatype Key<!T> = Key(cmp: (T, T) -> int, obj: T) {
    predicate Lt(other: Key<T>) {
      cmp(obj, other.obj) < 0
    }

    predicate Gt(other: Key<T>) {
      cmp(obj, other.obj) > 0
    }

    predicate Eq(other: Key<T>) {
      cmp(obj, other.obj) == 0
    }

    predicate Le(other: Key<T>)
      ensures Le(other) <==> Lt(other) || Eq(other)
    {
      cmp(obj, other.obj) <= 0
    }

    predicate Ge(other: Key<T>)
      ensures Ge(other) <==> Gt(other) || Eq(other)
    {
      cmp(obj, other.obj) >= 0
    }

    predicate Ne(other: Key<T>)
      ensures Ne(other) <==> !Eq(other)
    {
      cmp(obj, other.obj) != 0
    }
  }

  /**
   * Keyed by `compare_applications`, the `K` relations form a total
   * preorder: `>` is `<` swapped, exactly one of `<`, `==`, `>` holds, and
   * `<` and `<=` are transitive.
   */
  lemma ApplicationKeyOrder(a: Application, b: Application, c: Application)
    ensures var ka := Key(CompareApplications, a);
            var kb := Key(CompareApplications, b);
            var kc := Key(CompareApplications, c);
            && (ka.Gt(kb) <==> kb.Lt(ka))
            && (ka.Eq(kb) <==> kb.Eq(ka))
            && (ka.Lt(kb) || ka.Eq(kb) || ka.Gt(kb))
            && !(ka.Lt(kb) && ka.Gt(kb)) && !(ka.Lt(kb) && ka.Eq(kb))
            && !ka.Lt(ka)
            && (ka.Le(kb) && kb.Le(kc) ==> ka.Le(kc))
            && (ka.Lt(kb) && kb.Lt(kc) ==> ka.Lt(kc))
  {
    CompareAntisymmetric(a, b);
    CompareAntisymmetric(a, a);
    if CompareApplications(a, b) <= 0 && CompareApplications(b, c) <= 0 {
      CompareTransitive(a, b, c);
    }
    if CompareApplications(a, b) < 0 && CompareApplications(b, c) < 0 {
      CompareStrictTransitive(a, b, c);
    }
  }

  // ---------------------------------------------------------------------
  // trim_icon and the process listing

  datatype IconValue = Bytes(bytes: seq<byte>) | Text(text: string) | Number(n: int)

  type Icon = map<string, IconValue>

  datatype DumpError = KeyError(key: string) | TypeError

  const ELLIPSIS: seq<byte> := [46, 46, 46]

  /** `trim_icon(icon)`: a copy whose image keeps its first 16 bytes followed by `...`. */
  function TrimIcon(icon: Icon): (r: Result<Icon, DumpError>)
    ensures "image" !in icon ==> r == Err(KeyError("image"))
    ensures "image" in icon && !icon["image"].Bytes? ==> r == Err(TypeError)
    ensures r.Ok? ==> "image" in icon && icon["image"].Bytes?
    ensures r.Ok? ==> r.value.Keys == icon.Keys
    ensures r.Ok? ==> forall k :: k in icon && k != "image" ==> r.value[k] == icon[k]
    ensures r.Ok? ==> var image := icon["image"].bytes;
                      && r.value["image"].Bytes?
                      && |r.value["image"].bytes| == (if |image| < 16 then |image| else 16) + 3
                      && r.value["image"].bytes[..|r.value["image"].bytes| - 3] <= image
                      && r.value["image"].bytes[|r.value["image"].bytes| - 3..] == ELLIPSIS
  {
    if "image" !in icon then Err(KeyError("image"))
    else match icon["image"]
      case Bytes(image) =>
        var kept := if |image| < 16 then image else image[..16];
        assert (kept + ELLIPSIS)[..|kept|] == kept;
        Ok(icon["image" := Bytes(kept + ELLIPSIS)])
      case _ => Err(TypeError)
  }

  /** An image of at most 16 bytes is kept whole, with the ellipsis appended. */
  lemma TrimShortImageAppendsOnly(icon: Icon)
    requires "image" in icon && icon["image"].Bytes? && |icon["image"].bytes| <= 16
    ensures TrimIcon(icon).Ok? && TrimIcon(icon).value["image"].bytes == icon["image"].bytes + ELLIPSIS
  {}

  const PREFIXES: seq<string> := ["/var/containers/Bundle/Application/", "/private/var/containers/Bundle/Application/"]

  /** An application container path, not an app extension's. */
  predicate IsListed(path: string) {
    (exists prefix :: prefix in PREFIXES && StartsWith(path, prefix)) && !Contains(path, "appex")
  }

  /** A listed path lies under exactly one of the two container roots. */
  lemma ListedUnderOneRoot(path: string)
    requires IsListed(path)
    ensures StartsWith(path, PREFIXES[0]) != StartsWith(path, PREFIXES[1])
  {
    var p0, p1 := PREFIXES[0], PREFIXES[1];
    assert p0[1] == 'v' && p1[1] == 'p';
    if StartsWith(path, p0) {
      assert path[1] == 'v' by {
        assert path[..|p0|][1] == p0[1];
      }
      assert !StartsWith(path, p1) by {
        if |p1| <= |path| {
          assert path[..|p1|][1] == path[1];
        }
      }
    } else {
      var prefix :| prefix in PREFIXES && StartsWith(path, prefix);
      assert prefix == p1;
    }
  }

  /**
   * A process as the device enumerates it: `pid` and `name`, and the
   * `parameters` the listing reads, each possibly absent.
   */
  datatype Process = Process(pid: int, name: string, path: Option<string>, user: Option<string>,
                             ppid: Option<int>, started: Option<string>, icons: Option<seq<Icon>>)

  function TrimIcons(icons: seq<Icon>): (r: Result<seq<Icon>, DumpError>)
    ensures r.Ok? ==> |r.value| == |icons| && forall i :: 0 <= i < |icons| ==> TrimIcon(icons[i]) == Ok(r.value[i])
    ensures r.Err? ==> exists i :: 0 <= i < |icons| && TrimIcon(icons[i]) == Err(r.error)
                                   && forall j :: 0 <= j < i ==> TrimIcon(icons[j]).Ok?
  {
    if icons == [] then Ok([])
    else
      var first :- TrimIcon(icons[0]);
      match TrimIcons(icons[1..])
      case Ok(rest) => Ok([first] + rest)
      case Err(e) =>
        var i :| 0 <= i < |icons[1..]| && TrimIcon(icons[1..][i]) == Err(e)
                 && forall j :: 0 <= j < i ==> TrimIcon(icons[1..][j]).Ok?;
        assert TrimIcon(icons[i + 1]) == Err(e);
        assert forall j | 0 <= j < i + 1 :: TrimIcon(icons[j]).Ok? by {
          forall j | 0 <= j < i + 1 ensures TrimIcon(icons[j]).Ok? {
            if j > 0 { assert icons[j] == icons[1..][j - 1]; }
          }
        }
        Err(e)
  }

  /** The process is printed: its path is an application container's. */
  predicate Shown(p: Process) {
    p.path.Some? && IsListed(p.path.value)
  }

  /**
   * The exception handling one process raises, in the order the loop body
   * meets them: a malformed icon, a missing `path`, then, for a printed
   * process, a missing `user`, `ppid` or `started`.
   */
  function Fault(p: Process): (e: Option<DumpError>)
    ensures e.None? ==> p.path.Some?
    ensures e.None? && Shown(p) ==> p.user.Some? && p.ppid.Some? && p.started.Some?
    ensures p.icons.None? && p.path.None? ==> e == Some(KeyError("path"))
  {
    if p.icons.Some? && TrimIcons(p.icons.value).Err? then Some(TrimIcons(p.icons.value).error)
    else if p.path.None? then Some(KeyError("path"))
    else if !IsListed(p.path.value) then None
    else if p.user.None? then Some(KeyError("user"))
    else if p.ppid.None? then Some(KeyError("ppid"))
    else if p.started.None? then Some(KeyError("started"))
    else None
  }

  /** What `list_processes` has printed when it returns or raises, and what it raised. */
  datatype Listed = Listed(printed: seq<Process>, error: Option<DumpError>)

  /**
   * The loop of `list_processes` for a given test of what a process raises
   * and of whether it is printed: each printed process in order, until the
   * first one that raises; what was printed before it stays printed.
   */
  function ListingBy(procs: seq<Process>, fault: Process -> Option<DumpError>, shown: Process -> bool): Listed
    decreases |procs|
  {
    if procs == [] then Listed([], None)
    else
      var p := procs[0];
      if fault(p).Some? then Listed([], fault(p))
      else
        var rest := ListingBy(procs[1..], fault, shown);
        Listed((if shown(p) then [p] else []) + rest.printed, rest.error)
  }

  /** `list_processes` over the enumerated processes. */
  function Listing(procs: seq<Process>): Listed {
    ListingBy(procs, Fault, Shown)
  }

  lemma {:induction false} ListingByAppend(a: seq<Process>, b: seq<Process>,
                                           fault: Process -> Option<DumpError>, shown: Process -> bool)
    ensures var la, lb := ListingBy(a, fault, shown), ListingBy(b, fault, shown);
            && (la.error.Some? ==> ListingBy(a + b, fault, shown) == la)
            && (la.error.None? ==> ListingBy(a + b, fault, shown) == Listed(la.printed + lb.printed, lb.error))
    decreases |a|
  {
    if a == [] {
      assert a + b == b;
    } else {
      assert (a + b)[0] == a[0] && (a + b)[1..] == a[1..] + b;
      ListingByAppend(a[1..], b, fault, shown);
      var rest := ListingBy(a[1..], fault, shown);
      if fault(a[0]).None? && rest.error.None? {
        var head := if shown(a[0]) then [a[0]] else [];
        var tail := ListingBy(b, fault, shown).printed;
        assert head + (rest.printed + tail) == (head + rest.printed) + tail;
      }
    }
  }

  /**
   * The listing of two runs of processes: the first run's printout, then,
   * unless the first run raised, the second run's printout and outcome.
   */
  lemma ListingAppend(a: seq<Process>, b: seq<Process>)
    ensures Listing(a).error.Some? ==> Listing(a + b) == Listing(a)
    ensures Listing(a).error.None? ==>
              Listing(a + b) == Listed(Listing(a).printed + Listing(b).printed, Listing(b).error)
  {
    ListingByAppend(a, b, Fault, Shown);
  }

  lemma {:induction false} ListingByPrintsShown(procs: seq<Process>,
                                                fault: Process -> Option<DumpError>, shown: Process -> bool)
    ensures var out := ListingBy(procs, fault, shown);
            && (forall p :: p in out.printed ==> p in procs && shown(p))
            && |out.printed| <= |procs|
            && (out.error.None? ==> forall p :: p in procs && shown(p) ==> p in out.printed)
    decreases |procs|
  {
    if procs != [] {
      ListingByPrintsShown(procs[1..], fault, shown);
      assert procs == [procs[0]] + procs[1..];
    }
  }

  lemma {:induction false} ListingByRaises(procs: seq<Process>,
                                           fault: Process -> Option<DumpError>, shown: Process -> bool)
    ensures var out := ListingBy(procs, fault, shown);
            out.error.Some? ==> exists k :: 0 <= k < |procs| && fault(procs[k]) == out.error
                                   && ListingBy(procs[..k], fault, shown) == Listed(out.printed, None)
    decreases |procs|
  {
    if procs != [] {
      var p := procs[0];
      var rest := procs[1..];
      var out := ListingBy(procs, fault, shown);
      if fault(p).Some? {
        assert procs[..0] == [];
      } else if out.error.Some? {
        ListingByRaises(rest, fault, shown);
        var k :| 0 <= k < |rest| && fault(rest[k]) == ListingBy(rest, fault, shown).error
                 && ListingBy(rest[..k], fault, shown) == Listed(ListingBy(rest, fault, shown).printed, None);
        assert procs[k + 1] == rest[k];
        assert procs[..k + 1] == [p] + rest[..k];
        ListingByAppend([p], rest[..k], fault, shown);
        assert ListingBy([p], fault, shown) == Listed(if shown(p) then [p] else [], None) by {
          assert [p][1..] == [];
        }
      }
    }
  }

  /**
   * Every printed process is a shown one, in the order enumerated; a
   * listing that raises nothing prints every shown process; a listing that
   * raises, raises the fault of some process, after printing the shown
   * processes before it.
   */
  lemma ListingFilters(procs: seq<Process>)
    ensures var out := Listing(procs);
            && (forall p :: p in out.printed ==> p in procs && Shown(p))
            && |out.printed| <= |procs|
            && (out.error.None? ==> forall p :: p in procs && Shown(p) ==> p in out.printed)
            && (out.error.Some? ==> exists k :: 0 <= k < |procs| && Fault(procs[k]) == out.error
                                     && Listing(procs[..k]) == Listed(out.printed, None))
  {
    ListingByPrintsShown(procs, Fault, Shown);
    ListingByRaises(procs, Fault, Shown);
  }

  /**
   * A process without icons that is shown, followed by one whose only icon
   * has no `image`: the first is printed before the KeyError is raised.
   */
  lemma PrintedBeforeKeyError(p1: Process, p2: Process, icon: Icon)
    requires Shown(p1) && p1.icons.None? && p1.user.Some? && p1.ppid.Some? && p1.started.Some?
    requires p2.icons == Some([icon]) && "image" !in icon
    ensures Listing([p1, p2]) == Listed([p1], Some(KeyError("image")))
  {
    assert TrimIcon(icon) == Err(KeyError("image"));
    assert TrimIcons([icon]) == Err(KeyError("image"));
    assert Fault(p1) == None && Fault(p2) == Some(KeyError("image"));
    assert [p1, p2][1..] == [p2];
    assert ListingBy([p2], Fault, Shown) == Listed([], Some(KeyError("image")));
  }

  /** The listing from index `i` on, one process unfolded. */
  lemma ListingByAt(procs: seq<Process>, i: nat, fault: Process -> Option<DumpError>, shown: Process -> bool)
    requires i < |procs|
    ensures var p, rest := procs[i], ListingBy(procs[i + 1..], fault, shown);
            ListingBy(procs[i..], fault, shown) == if fault(p).Some? then Listed([], fault(p))
                                                 else Listed((if shown(p) then [p] else []) + rest.printed, rest.error)
  {
    assert procs[i..][0] == procs[i] && procs[i..][1..] == procs[i + 1..];
  }

  /** A process that raises ends the listing with what was printed before it. */
  lemma ListingByStop(procs: seq<Process>, i: nat, printed: seq<Process>,
                      fault: Process -> Option<DumpError>, shown: Process -> bool)
    requires i < |procs| && fault(procs[i]).Some?
    requires var l := ListingBy(procs[i..], fault, shown);
             ListingBy(procs, fault, shown) == Listed(printed + l.printed, l.error)
    ensures ListingBy(procs, fault, shown) == Listed(printed, fault(procs[i]))
  {
    ListingByAt(procs, i, fault, shown);
    assert printed + [] == printed;
  }

  /** A process that raises nothing is printed when shown, and the listing goes on with the next one. */
  lemma ListingByStep(procs: seq<Process>, i: nat, printed: seq<Process>,
                      fault: Process -> Option<DumpError>, shown: Process -> bool)
    requires i < |procs| && fault(procs[i]).None?
    requires var l := ListingBy(procs[i..], fault, shown);
             ListingBy(procs, fault, shown) == Listed(printed + l.printed, l.error)
    ensures var l := ListingBy(procs[i + 1..], fault, shown);
            && (shown(procs[i]) ==> ListingBy(procs, fault, shown) == Listed(printed + [procs[i]] + l.printed, l.error))
            && (!shown(procs[i]) ==> ListingBy(procs, fault, shown) == Listed(printed + l.printed, l.error))
  {
    ListingByAt(procs, i, fault, shown);
    var rest := ListingBy(procs[i + 1..], fault, shown);
    if shown(procs[i]) {
      assert printed + ([procs[i]] + rest.printed) == printed + [procs[i]] + rest.printed;
    } else {
      assert [] + rest.printed == rest.printed;
    }
  }

  /** The body of `list_processes`' loop up to the print: what one process raises, if anything. */
  method CheckProcess(p: Process) returns (e: Option<DumpError>)
    ensures e == Fault(p)
  {
    if p.icons.Some? {
      var trimmed := TrimIcons(p.icons.value);
      if trimmed.Err? {
        return Some(trimmed.error);
      }
    }
    if p.path.None? {
      return Some(KeyError("path"));
    }
    if IsListed(p.path.value) {
      if p.user.None? {
        return Some(KeyError("user"));
      }
      if p.ppid.None? {
        return Some(KeyError("ppid"));
      }
      if p.started.None? {
        return Some(KeyError("started"));
      }
    }
    return None;
  }

  /** `list_processes(device)` over the processes the device enumerates. */
  method ListProcesses(procs: seq<Process>) returns (printed: seq<Process>, error: Option<DumpError>)
    ensures Listed(printed, error) == Listing(procs)
  {
    printed := [];
    var i := 0;
    assert procs[0..] == procs;
    while i < |procs|
      invariant 0 <= i <= |procs|
      invariant Listing(procs) == Listed(printed + Listing(procs[i..]).printed, Listing(procs[i..]).error)
    {
      var p := procs[i];
      var e := CheckProcess(p);
      if e.Some? {
        ListingByStop(procs, i, printed, Fault, Shown);
        return printed, e;
      }
      ListingByStep(procs, i, printed, Fault, Shown);
      if Shown(p) {
        printed := printed + [p];
      }
      i := i + 1;
    }
    assert procs[i..] == [];
    return printed, None;
  }


  // ---------------------------------------------------------------------
  // on_message's file table

  /** `os.path.basename`: the text after the last slash (empty for a trailing slash). */
  function Basename(p: string): (r: string)
    ensures forall k :: 0 <= k < |r| ==> r[k] != '/'
    ensures LastSlash(p).None? ==> r == p
    ensures LastSlash(p).Some? ==> |r| < |p| && p == p[..|p| - |r|] + r && p[|p| - |r| - 1] == '/'
  {
    match LastSlash(p)
    case None => p
    case Some(i) => p[i + 1..]
  }

  /**
   * `origin_path[origin_path.find('.app/') + 5:]`: the part after the first
   * `.app/`; without one, `find` gives -1 and the slice starts at index 4.
   */
  function BundleRelative(origin: string): (r: string)
    ensures Find(origin, ".app/").Some? ==> r == SubstringFrom(origin, Find(origin, ".app/").value + 5)
    ensures Find(origin, ".app/").None? ==> r == SubstringFrom(origin, 4)
  {
    var start := match Find(origin, ".app/") case Some(i) => i + 5 case None => 4;
    SubstringFrom(origin, start)
  }

  /** The part after `.app/` is what follows that first occurrence, and the rest of the origin precedes it. */
  lemma BundleRelativeSuffix(origin: string)
    requires Find(origin, ".app/").Some?
    ensures var i := Find(origin, ".app/").value;
            origin == origin[..i] + ".app/" + BundleRelative(origin)
  {
    var i := Find(origin, ".app/").value;
    assert origin[i..i + 5] == ".app/";
    assert origin == origin[..i] + origin[i..i + 5] + origin[i + 5..];
  }

  /** A module outside any bundle whose fifth character is a slash keeps an absolute remainder. */
  lemma OutsideBundleIsAbsolute(origin: string)
    requires Find(origin, ".app/").None? && |origin| > 4 && origin[4] == '/'
    ensures StartsWith(BundleRelative(origin), "/")
  {
    assert BundleRelative(origin)[0] == origin[4];
  }

  /** A Python dict's items in insertion order; keys are unique. */
  type FileTable = seq<(string, string)>

  predicate UniqueKeys(t: FileTable) {
    forall i, j :: 0 <= i < j < |t| ==> t[i].0 != t[j].0
  }

  /** `d.get(key)`. */
  function Lookup(t: FileTable, key: string): (r: Option<string>)
    ensures r.None? <==> forall i :: 0 <= i < |t| ==> t[i].0 != key
    ensures r.Some? ==> (key, r.value) in t
  {
    if t == [] then None
    else if t[0].0 == key then Some(t[0].1)
    else Lookup(t[1..], key)
  }

  /** `d[key] = value`: an existing key keeps its place, a new one goes last. */
  function Assign(t: FileTable, key: string, value: string): (r: FileTable)
    ensures Lookup(t, key).None? ==> r == t + [(key, value)]
    ensures Lookup(t, key).Some? ==> |r| == |t| && forall i :: 0 <= i < |t| ==> r[i].0 == t[i].0
    ensures forall i :: 0 <= i < |t| && t[i].0 != key ==> r[i] == t[i]
    ensures forall i :: 0 <= i < |r| ==> r[i] == (key, value) || r[i] in t
  {
    if t == [] then [(key, value)]
    else if t[0].0 == key then [(key, value)] + t[1..]
    else [t[0]] + Assign(t[1..], key, value)
  }

  /** `d[key] = value` keeps the keys unique. */
  lemma AssignUnique(t: FileTable, key: string, value: string)
    requires UniqueKeys(t)
    ensures UniqueKeys(Assign(t, key, value))
  {
    var r := Assign(t, key, value);
    if Lookup(t, key).None? {
      forall i, j | 0 <= i < j < |r| ensures r[i].0 != r[j].0 {
        assert r[i] == t[i];
        if j < |t| {
          assert r[j] == t[j];
        }
      }
    } else {
      forall i, j | 0 <= i < j < |r| ensures r[i].0 != r[j].0 {
        assert r[i].0 == t[i].0 && r[j].0 == t[j].0;
      }
    }
  }


  /** After `d[key] = value`, `key` maps to `value` and every other key to what it did before. */
  lemma {:induction false} AssignLookup(t: FileTable, key: string, value: string, other: string)
    ensures Lookup(Assign(t, key, value), key) == Some(value)
    ensures other != key ==> Lookup(Assign(t, key, value), other) == Lookup(t, other)
    decreases |t|
  {
    if t != [] && t[0].0 != key {
      AssignLookup(t[1..], key, value, other);
    }
  }

  /** The global table and the `finished` event, as `on_message` updates them. */
  class DumpSession {
    var fileTable: FileTable
    var finished: bool

    constructor ()
      ensures fileTable == [] && !finished
    {
      fileTable := [];
      finished := false;
    }

    /**
     * `on_message(message, data)` without the copy and `chmod` steps: a
     * `dump` entry maps the dumped file's name to its bundle-relative path,
     * an `app` entry records the bundle's name, `done` sets the event.
     */
    method OnMessage(payload: Option<map<string, string>>) returns (r: Result<(), DumpError>)
      modifies this
      ensures payload.None? ==> r.Ok? && fileTable == old(fileTable) && finished == old(finished)
      ensures payload.Some? && "dump" in payload.value && "path" !in payload.value ==>
                r == Err(KeyError("path")) && fileTable == old(fileTable) && finished == old(finished)
      ensures r.Ok? && payload.Some? ==> var p := payload.value;
                        var t1 := if "dump" in p then Assign(old(fileTable), Basename(p["dump"]), BundleRelative(p["path"]))
                                  else old(fileTable);
                        && fileTable == (if "app" in p then Assign(t1, "app", Basename(p["app"])) else t1)
                        && finished == (old(finished) || "done" in p)
      ensures r.Err? ==> payload.Some? && "dump" in payload.value && "path" !in payload.value
    {
      if payload.None? {
        return Ok(());
      }
      var p := payload.value;
      if "dump" in p {
        if "path" !in p {
          return Err(KeyError("path"));
        }
        var origin := p["path"];
        var dumpPath := p["dump"];
        fileTable := Assign(fileTable, Basename(dumpPath), BundleRelative(origin));
      }
      if "app" in p {
        fileTable := Assign(fileTable, "app", Basename(p["app"]));
      }
      if "done" in p {
        finished := true;
      }
      return Ok(());
    }
  }

  /** `os.path.join(a, b)`: an absolute `b` replaces `a`. */
  function OsJoin(a: string, b: string): (r: string)
    ensures StartsWith(b, "/") ==> r == b
    ensures !StartsWith(b, "/") && (a == [] || EndsWith(a, "/")) ==> r == a + b
    ensures !StartsWith(b, "/") && a != [] && !EndsWith(a, "/") ==> r == a + "/" + b
  {
    if StartsWith(b, "/") then b
    else if a == [] || EndsWith(a, "/") then a + b
    else a + "/" + b
  }

  /** The moves `generate_ipa` makes for the table entries from the given one on. */
  function Moves(path: string, appName: string, items: FileTable): (r: seq<(string, string)>)
    ensures |r| <= |items|
  {
    if items == [] then []
    else
      var key := items[0].0;
      var rest := Moves(path, appName, items[1..]);
      if key != "app" then [(OsJoin(path, key), OsJoin(OsJoin(path, appName), items[0].1))] + rest else rest
  }

  /**
   * Every move takes a dumped file from the payload directory to its place
   * inside the bundle, unless the recorded place is absolute.
   */
  lemma {:induction false} MovesIntoBundle(path: string, appName: string, items: FileTable)
    requires path != [] && !EndsWith(path, "/") && !StartsWith(appName, "/")
    ensures forall m :: m in Moves(path, appName, items) ==>
              exists i :: 0 <= i < |items| && items[i].0 != "app" && m.0 == OsJoin(path, items[i].0) &&
                (StartsWith(items[i].1, "/") ==> m.1 == items[i].1) &&
                (!StartsWith(items[i].1, "/") && !EndsWith(appName, "/") && appName != [] ==>
                   m.1 == path + "/" + appName + "/" + items[i].1)
    decreases |items|
  {
    if items != [] {
      MovesIntoBundle(path, appName, items[1..]);
      var dir := OsJoin(path, appName);
      if appName != [] && !EndsWith(appName, "/") {
        assert dir == path + "/" + appName;
        assert dir[|dir| - 1..] == appName[|appName| - 1..];
        assert !EndsWith(dir, "/");
      }
      forall m | m in Moves(path, appName, items)
        ensures exists i :: 0 <= i < |items| && items[i].0 != "app" && m.0 == OsJoin(path, items[i].0) &&
                  (StartsWith(items[i].1, "/") ==> m.1 == items[i].1) &&
                  (!StartsWith(items[i].1, "/") && !EndsWith(appName, "/") && appName != [] ==>
                     m.1 == path + "/" + appName + "/" + items[i].1)
      {
        if m in Moves(path, appName, items[1..]) {
          var i :| 0 <= i < |items[1..]| && items[1..][i].0 != "app" && m.0 == OsJoin(path, items[1..][i].0) &&
                   (StartsWith(items[1..][i].1, "/") ==> m.1 == items[1..][i].1) &&
                   (!StartsWith(items[1..][i].1, "/") && !EndsWith(appName, "/") && appName != [] ==>
                      m.1 == path + "/" + appName + "/" + items[1..][i].1);
          assert items[i + 1] == items[1..][i];
        } else {
          assert items[0].0 != "app";
        }
      }
    }
  }

  /** `generate_ipa`'s loop: the bundle's name must be in the table (else KeyError). */
  method PlanMoves(path: string, table: FileTable) returns (r: Result<seq<(string, string)>, DumpError>)
    ensures Lookup(table, "app").None? ==> r == Err(KeyError("app"))
    ensures Lookup(table, "app").Some? ==> r == Ok(Moves(path, Lookup(table, "app").value, table))
  {
    var app := Lookup(table, "app");
    if app.None? {
      return Err(KeyError("app"));
    }
    var appName := app.value;
    var moves: seq<(string, string)> := [];
    var i := 0;
    while i < |table|
      invariant 0 <= i <= |table|
      invariant moves + Moves(path, appName, table[i..]) == Moves(path, appName, table)
    {
      assert table[i..][1..] == table[i + 1..];
      var (key, value) := table[i];
      if key != "app" {
        moves := moves + [(OsJoin(path, key), OsJoin(OsJoin(path, appName), value))];
      }
      i := i + 1;
    }
    assert Moves(path, appName, table[i..]) == [];
    assert moves + [] == moves;
    return Ok(moves);
  }

  // ---------------------------------------------------------------------
  // progress

  /** One `progress(filename, size, sent)` call. */
  datatype ProgressCall = ProgressCall(filename: string, size: int, sent: int)

  /** The last-sent counter after a call: it restarts once a file is complete. */
  function NextLastSent(c: ProgressCall): int {
    if c.size == c.sent then 0 else c.sent
  }

  /**
   * The last-sent counter and the sum of the bar updates after a sequence
   * of calls, starting from `lastSent`.
   */
  function Progress(lastSent: int, calls: seq<ProgressCall>): (r: (int, int))
    ensures calls == [] ==> r == (lastSent, 0)
    ensures calls != [] ==> r.0 == NextLastSent(calls[|calls| - 1])
    decreases |calls|
  {
    if calls == [] then (lastSent, 0)
    else
      var r := Progress(NextLastSent(calls[0]), calls[1..]);
      (r.0, calls[0].sent - lastSent + r.1)
  }

  lemma {:induction false} ProgressAppend(lastSent: int, a: seq<ProgressCall>, b: seq<ProgressCall>)
    ensures var ra := Progress(lastSent, a);
            var rb := Progress(ra.0, b);
            Progress(lastSent, a + b) == (rb.0, ra.1 + rb.1)
    decreases |a|
  {
    if a != [] {
      ProgressAppend(NextLastSent(a[0]), a[1..], b);
      assert (a + b)[0] == a[0] && (a + b)[1..] == a[1..] + b;
    } else {
      assert a + b == b;
    }
  }

  /** The calls for one file: only its last report reaches its size. */
  predicate OneFile(size: int, calls: seq<ProgressCall>) {
    && |calls| > 0
    && (forall i :: 0 <= i < |calls| ==> calls[i].size == size)
    && calls[|calls| - 1].sent == size
    && (forall i :: 0 <= i < |calls| - 1 ==> calls[i].sent != size)
  }

  /** The updates for one file telescope to its size less what was already counted. */
  lemma {:induction false} OneFileTelescopes(lastSent: int, size: int, calls: seq<ProgressCall>)
    requires OneFile(size, calls)
    ensures Progress(lastSent, calls) == (0, size - lastSent)
    decreases |calls|
  {
    if |calls| > 1 {
      OneFileTelescopes(calls[0].sent, size, calls[1..]);
    }
  }

  /** A sequence of complete files: the updates add up to the sum of their sizes. */
  lemma {:induction false} FilesAddUp(sizes: seq<int>, files: seq<seq<ProgressCall>>)
    requires |sizes| == |files|
    requires forall i :: 0 <= i < |files| ==> OneFile(sizes[i], files[i])
    ensures Progress(0, Flatten(files)) == (0, Sum(sizes))
    decreases |files|
  {
    if files != [] {
      OneFileTelescopes(0, sizes[0], files[0]);
      FilesAddUp(sizes[1..], files[1..]);
      ProgressAppend(0, files[0], Flatten(files[1..]));
    }
  }

  function Flatten(files: seq<seq<ProgressCall>>): seq<ProgressCall> {
    if files == [] then [] else files[0] + Flatten(files[1..])
  }

  function Sum(xs: seq<int>): int {
    if xs == [] then 0 else xs[0] + Sum(xs[1..])
  }

  /** A complete file reported twice is counted twice: the restart is not idempotent. */
  lemma RepeatedCompletionCountsTwice(size: int)
    requires size > 0
    ensures Progress(0, [ProgressCall("f", size, size), ProgressCall("f", size, size)]).1 == 2 * size
  {
    var c := ProgressCall("f", size, size);
    assert [c, c][1..] == [c];
    assert Progress(0, [c]) == (0, size);
  }

  /** The progress bar of one `on_message` call. */
  class ProgressBar {
    var lastSent: int
    var counted: int
    var desc: string
    var total: int

    constructor ()
      ensures lastSent == 0 && counted == 0 && desc == [] && total == 0
    {
      lastSent := 0;
      counted := 0;
      desc := [];
      total := 0;
    }

    /** `progress(filename, size, sent)`. */
    method Report(filename: string, size: int, sent: int)
      modifies this
      ensures desc == Basename(filename) && total == size
      ensures (lastSent, counted - old(counted)) == Progress(old(lastSent), [ProgressCall(filename, size, sent)])
    {
      desc := Basename(filename);
      total := size;
      counted := counted + (sent - lastSent);
      lastSent := if size == sent then 0 else sent;
    }
  }

  // ---------------------------------------------------------------------
  // The output name

  /**
   * `re.sub('\.ipa$', '', name)`: `$` also matches before a final newline,
   * which is kept.
   */
  function StripIpa(name: string): (r: string)
    ensures EndsWith(name, ".ipa") ==> r == name[..|name| - 4]
    ensures !EndsWith(name, ".ipa") && EndsWith(name, ".ipa\n") ==> r == name[..|name| - 5] + "\n"
    ensures !EndsWith(name, ".ipa") && !EndsWith(name, ".ipa\n") ==> r == name
  {
    if EndsWith(name, ".ipa") then name[..|name| - 4]
    else if EndsWith(name, ".ipa\n") then name[..|name| - 5] + "\n"
    else name
  }

  /** Exactly one `.ipa` comes off, whatever precedes it. */
  lemma StripIpaOnce(stem: string)
    ensures StripIpa(stem + ".ipa") == stem
  {
    assert (stem + ".ipa")[|stem + ".ipa"| - 4..] == ".ipa";
    assert (stem + ".ipa")[..|stem|] == stem;
  }

  /** The archive `generate_ipa` writes: the name given, with `.ipa` added once. */
  lemma IpaFileName(name: string)
    requires !EndsWith(name, ".ipa\n")
    ensures EndsWith(name, ".ipa") ==> StripIpa(name) + ".ipa" == name
    ensures !EndsWith(name, ".ipa") ==> StripIpa(name) + ".ipa" == name + ".ipa"
  {
    if EndsWith(name, ".ipa") {
      assert name == name[..|name| - 4] + name[|name| - 4..];
    }
  }
}
