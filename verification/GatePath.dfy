/** Where a path is: the system's own walk over its parts, and the gate's. */
module GatePath {
  import opened Wrappers
  import Registry

  type Name = Registry.Name

  /** A place in the file system: the names from the root, no link among them. */
  type Place = Registry.Dir

  // ── The file system ──

  datatype Part = Here | Up | Named(name: Name)

  /** A path as written: `.`, `..` and names, from the root or from where one is. */
  datatype Path = Path(absolute: bool, parts: seq<Part>)

  datatype Entry = Folder | File | Link(target: Path)

  type Disk = map<Place, Entry>

  /** The root is a folder, and what is there is in a folder. */
  ghost predicate WellFormed(disk: Disk) {
    && [] in disk && disk[[]] == Folder
    && forall p {:trigger disk[p]} :: p in disk && p != [] ==> p[..|p| - 1] in disk && disk[p[..|p| - 1]] == Folder
  }

  function Parent(at: Place): Place {
    if at == [] then [] else at[..|at| - 1]
  }

  // ── The system's resolution ──

  /** The links the system will follow for one path. */
  const LINKS: nat := 40

  datatype Reach = Reached(at: Place, left: nat) | Stuck

  /** Each part from where the last one led, links followed as they are met. With
      `create`, the last part may name what is not there yet. */
  function Walk(disk: Disk, at: Place, parts: seq<Part>, links: nat, create: bool): Reach
    decreases links, |parts|
  {
    if parts == [] then Reached(at, links)
    else if at !in disk || disk[at] != Folder then Stuck
    else match parts[0]
      case Here => Walk(disk, at, parts[1..], links, create)
      case Up => Walk(disk, Parent(at), parts[1..], links, create)
      case Named(name) =>
        var next := at + [name];
        if next !in disk then if create && |parts| == 1 then Reached(next, links) else Stuck
        else match disk[next]
          case Link(target) =>
            if links == 0 then Stuck
            else Walk(disk, if target.absolute then [] else at, target.parts + parts[1..], links - 1, create)
          case _ => Walk(disk, next, parts[1..], links, create)
  }

  /** The real place of what exists at a path from the root. */
  function Canonical(disk: Disk, parts: seq<Part>): Option<Place> {
    match Walk(disk, [], parts, LINKS, false)
    case Reached(at, _) => Some(at)
    case Stuck => None
  }

  // ── The gate's resolution ──

  function Names(at: Place): (r: seq<Part>)
    ensures |r| == |at|
  {
    seq(|at|, i requires 0 <= i < |at| => Named(at[i]))
  }

  /** A path taken from a folder: an absolute one forgets the folder. */
  function Join(at: Place, p: Path): seq<Part> {
    if p.absolute then p.parts else Names(at) + p.parts
  }

  function Gate(disk: Disk, parts: seq<Part>, depth: nat): Place
    requires depth <= LINKS
    decreases LINKS - depth, 1, 0
  {
    match Canonical(disk, parts)
    case Some(found) => found
    case None => GateFrom(disk, [], false, parts, depth)
  }

  /** What one more name makes of a place, and whether anything is missing now. */
  function Next(disk: Disk, at: Place, name: Name, depth: nat): (Place, bool)
    requires depth <= LINKS
    decreases LINKS - depth, 0, 0
  {
    var next := at + [name];
    match Canonical(disk, Names(next))
    case Some(found) => (found, false)
    case None =>
      if next in disk && disk[next].Link? && depth < LINKS
      then (Gate(disk, Join(at, disk[next].target), depth + 1), true)
      else (next, true)
  }

  function GateFrom(disk: Disk, at: Place, missing: bool, parts: seq<Part>, depth: nat): Place
    requires depth <= LINKS
    decreases LINKS - depth, 0, |parts|
  {
    if parts == [] then at
    else match parts[0]
      case Here => GateFrom(disk, at, missing, parts[1..], depth)
      case Up => GateFrom(disk, Parent(at), missing, parts[1..], depth)
      case Named(name) =>
        if missing then GateFrom(disk, at + [name], true, parts[1..], depth)
        else
          var (next, gone) := Next(disk, at, name, depth);
          GateFrom(disk, next, gone, parts[1..], depth)
  }

  method GateResolve(disk: Disk, parts: seq<Part>, depth: nat) returns (at: Place)
    requires depth <= LINKS
    ensures at == Gate(disk, parts, depth)
    decreases LINKS - depth
  {
    var whole := Canonical(disk, parts);
    if whole.Some? {
      return whole.value;
    }
    at := [];
    var missing := false;
    for i := 0 to |parts|
      invariant GateFrom(disk, at, missing, parts[i..], depth) == Gate(disk, parts, depth)
    {
      assert parts[i..][0] == parts[i] && parts[i..][1..] == parts[i + 1..];
      match parts[i]
      case Here =>
      case Up => at := Parent(at);
      case Named(name) =>
        var base := at;
        at := base + [name];
        if !missing {
          var found := Canonical(disk, Names(at));
          if found.Some? {
            at := found.value;
          } else {
            if at in disk && disk[at].Link? && depth < LINKS {
              at := GateResolve(disk, Join(base, disk[at].target), depth + 1);
            }
            missing := true;
          }
        }
    }
    assert parts[|parts|..] == [];
  }

  method GateOf(disk: Disk, cwd: Place, raw: Path) returns (at: Place)
    ensures at == Gate(disk, Join(cwd, raw), 0)
  {
    at := GateResolve(disk, Join(cwd, raw), 0);
  }

  // ── Facts about the system's resolution ──

  /** There, and no link: where a walk may stand. */
  predicate Real(disk: Disk, at: Place) {
    at in disk && !disk[at].Link?
  }

  lemma {:induction false} MoreLinks(disk: Disk, at: Place, parts: seq<Part>, links: nat, links': nat, create: bool)
    requires links <= links' && Walk(disk, at, parts, links, create).Reached?
    ensures var r := Walk(disk, at, parts, links, create);
      Walk(disk, at, parts, links', create) == Reached(r.at, r.left + links' - links)
    decreases links, |parts|
  {
    if parts != [] {
      match parts[0]
      case Here => MoreLinks(disk, at, parts[1..], links, links', create);
      case Up => MoreLinks(disk, Parent(at), parts[1..], links, links', create);
      case Named(name) =>
        var next := at + [name];
        if next in disk {
          match disk[next]
          case Link(target) =>
            MoreLinks(disk, if target.absolute then [] else at, target.parts + parts[1..], links - 1, links' - 1,
                      create);
          case _ => MoreLinks(disk, next, parts[1..], links, links', create);
        }
    }
  }

  /** A walk that goes on past some parts finds what they lead to there. */
  lemma {:induction false} WalkThrough(disk: Disk, at: Place, xs: seq<Part>, ys: seq<Part>, links: nat)
    requires ys != [] && Walk(disk, at, xs + ys, links, true).Reached?
    ensures var r := Walk(disk, at, xs, links, false);
      r.Reached? && r.left <= links && Walk(disk, at, xs + ys, links, true) == Walk(disk, r.at, ys, r.left, true)
    decreases links, |xs|
  {
    if xs == [] {
      assert xs + ys == ys;
    } else {
      assert (xs + ys)[1..] == xs[1..] + ys;
      match xs[0]
      case Here => WalkThrough(disk, at, xs[1..], ys, links);
      case Up => WalkThrough(disk, Parent(at), xs[1..], ys, links);
      case Named(name) =>
        var next := at + [name];
        match disk[next]
        case Link(target) =>
          assert target.parts + (xs[1..] + ys) == (target.parts + xs[1..]) + ys;
          WalkThrough(disk, if target.absolute then [] else at, target.parts + xs[1..], ys, links - 1);
        case _ => WalkThrough(disk, next, xs[1..], ys, links);
    }
  }

  /** What exists is where it would be created. */
  lemma {:induction false} ThereAlready(disk: Disk, at: Place, parts: seq<Part>, links: nat)
    requires Walk(disk, at, parts, links, false).Reached?
    ensures Walk(disk, at, parts, links, true) == Walk(disk, at, parts, links, false)
    ensures WellFormed(disk) && Real(disk, at) ==> Real(disk, Walk(disk, at, parts, links, false).at)
    decreases links, |parts|
  {
    if parts != [] {
      match parts[0]
      case Here => ThereAlready(disk, at, parts[1..], links);
      case Up => ThereAlready(disk, Parent(at), parts[1..], links);
      case Named(name) =>
        var next := at + [name];
        match disk[next]
        case Link(target) =>
          ThereAlready(disk, if target.absolute then [] else at, target.parts + parts[1..], links - 1);
        case _ => ThereAlready(disk, next, parts[1..], links);
    }
  }

  lemma {:induction false} PrefixIsFolder(disk: Disk, at: Place, k: nat)
    requires WellFormed(disk) && at in disk && k < |at|
    ensures at[..k] in disk && disk[at[..k]] == Folder
    decreases |at|
  {
    var up := at[..|at| - 1];
    assert disk[at] == disk[at];
    if k < |up| {
      PrefixIsFolder(disk, up, k);
      assert up[..k] == at[..k];
    }
  }

  /** From the root, the names of a real place lead to it, following no link. */
  lemma {:induction false} NamesLeadThere(disk: Disk, at: Place, k: nat, rest: seq<Part>, links: nat, create: bool)
    requires WellFormed(disk) && Real(disk, at) && k <= |at|
    ensures Walk(disk, at[..k], Names(at)[k..] + rest, links, create) == Walk(disk, at, rest, links, create)
    decreases |at| - k
  {
    if k == |at| {
      assert at[..k] == at && Names(at)[k..] + rest == rest;
    } else {
      PrefixIsFolder(disk, at, k);
      var parts := Names(at)[k..] + rest;
      assert parts[0] == Named(at[k]) && parts[1..] == Names(at)[k + 1..] + rest;
      assert at[..k] + [at[k]] == at[..k + 1];
      if k + 1 < |at| {
        PrefixIsFolder(disk, at, k + 1);
      } else {
        assert at[..k + 1] == at;
      }
      NamesLeadThere(disk, at, k + 1, rest, links, create);
    }
  }

  // ── The gate agrees with the system ──

  lemma JoinLeadsThere(disk: Disk, at: Place, target: Path, links: nat, create: bool)
    requires WellFormed(disk) && Real(disk, at)
    ensures Walk(disk, [], Join(at, target), links, create)
      == Walk(disk, if target.absolute then [] else at, target.parts, links, create)
  {
    if !target.absolute {
      NamesLeadThere(disk, at, 0, target.parts, links, create);
      assert Names(at)[0..] == Names(at) && at[..0] == [];
    }
  }

  /** What asking for the place `at + [name]` comes to. */
  lemma AskingNext(disk: Disk, at: Place, name: Name)
    requires WellFormed(disk) && Real(disk, at) && disk[at] == Folder
    ensures var next := at + [name]; var r := Canonical(disk, Names(next));
      && (next !in disk ==> r == None)
      && (next in disk && !disk[next].Link? ==> r == Some(next))
      && (next in disk && disk[next].Link? ==> r == Led(disk, at, disk[next].target))
  {
    var next := at + [name];
    var one := [Named(name)];
    assert Names(next) == Names(at) + one;
    NamesLeadThere(disk, at, 0, one, LINKS, false);
    assert Names(at)[0..] == Names(at) && at[..0] == [];
    assert one[1..] == [];
    if next in disk && disk[next].Link? {
      assert disk[next].target.parts + [] == disk[next].target.parts;
    }
  }

  /** Where a link in `at` leads, if to something there. */
  function Led(disk: Disk, at: Place, target: Path): Option<Place> {
    match Walk(disk, if target.absolute then [] else at, target.parts, LINKS - 1, false)
    case Reached(end, _) => Some(end)
    case Stuck => None
  }

  /** A step of the gate's follows the system's, or ends where it does. */
  ghost predicate Follows(disk: Disk, step: (Place, bool), rest: seq<Part>, left: nat, links: nat, place: Place) {
    && left <= links
    && (step.1 ==> rest == [] && step.0 == place)
    && (!step.1 ==>
          && Real(disk, step.0)
          && Walk(disk, step.0, rest, left, true).Reached?
          && Walk(disk, step.0, rest, left, true).at == place)
  }

  /** A link with more of the path behind it leads to something there. */
  lemma LinkInside(disk: Disk, at: Place, target: Path, rest: seq<Part>, links: nat) returns (left: nat)
    requires WellFormed(disk) && Real(disk, at) && 0 < links <= LINKS && rest != []
    requires Walk(disk, if target.absolute then [] else at, target.parts + rest, links - 1, true).Reached?
    ensures Led(disk, at, target).Some?
    ensures Follows(disk, (Led(disk, at, target).value, false), rest, left, links,
                    Walk(disk, if target.absolute then [] else at, target.parts + rest, links - 1, true).at)
  {
    var from := if target.absolute then [] else at;
    WalkThrough(disk, from, target.parts, rest, links - 1);
    ThereAlready(disk, from, target.parts, links - 1);
    MoreLinks(disk, from, target.parts, links - 1, LINKS - 1, false);
    left := Walk(disk, from, target.parts, links - 1, false).left;
  }

  /** A link at the end of the path, to something there. */
  lemma LinkAtEnd(disk: Disk, at: Place, target: Path, links: nat)
    requires WellFormed(disk) && Real(disk, at) && 0 < links <= LINKS && Led(disk, at, target).Some?
    requires Walk(disk, if target.absolute then [] else at, target.parts, links - 1, true).Reached?
    ensures Follows(disk, (Led(disk, at, target).value, false), [], 0, links,
                    Walk(disk, if target.absolute then [] else at, target.parts, links - 1, true).at)
  {
    var from := if target.absolute then [] else at;
    ThereAlready(disk, from, target.parts, LINKS - 1);
    MoreLinks(disk, from, target.parts, links - 1, LINKS - 1, true);
  }

  lemma {:induction false} DanglingFollows(disk: Disk, at: Place, target: Path, links: nat, depth: nat)
    requires WellFormed(disk) && Real(disk, at) && depth < LINKS && 0 < links <= LINKS - depth
    requires Walk(disk, if target.absolute then [] else at, target.parts, links - 1, true).Reached?
    ensures Follows(disk, (Gate(disk, Join(at, target), depth + 1), true), [], 0, links,
                    Walk(disk, if target.absolute then [] else at, target.parts, links - 1, true).at)
    decreases LINKS - depth, 0, 0
  {
    JoinLeadsThere(disk, at, target, links - 1, true);
    GateIsPlace(disk, Join(at, target), links - 1, depth + 1);
  }

  lemma {:induction false} LinkFollows(disk: Disk, at: Place, target: Path, rest: seq<Part>, links: nat, depth: nat)
    returns (left: nat)
    requires WellFormed(disk) && Real(disk, at) && depth < LINKS && 0 < links <= LINKS - depth
    requires Walk(disk, if target.absolute then [] else at, target.parts + rest, links - 1, true).Reached?
    ensures Follows(disk, match Led(disk, at, target)
                          case Some(found) => (found, false)
                          case None => (Gate(disk, Join(at, target), depth + 1), true),
                    rest, left, links,
                    Walk(disk, if target.absolute then [] else at, target.parts + rest, links - 1, true).at)
    decreases LINKS - depth, 0, 1
  {
    if rest != [] {
      left := LinkInside(disk, at, target, rest, links);
    } else {
      assert target.parts + rest == target.parts;
      left := 0;
      if Led(disk, at, target).Some? {
        LinkAtEnd(disk, at, target, links);
      } else {
        DanglingFollows(disk, at, target, links, depth);
      }
    }
  }

  lemma {:induction false} NextFollows(disk: Disk, at: Place, name: Name, rest: seq<Part>, links: nat, depth: nat)
    returns (left: nat)
    requires WellFormed(disk) && Real(disk, at) && depth <= LINKS && links <= LINKS - depth
    requires Walk(disk, at, [Named(name)] + rest, links, true).Reached?
    ensures Follows(disk, Next(disk, at, name, depth), rest, left, links,
                    Walk(disk, at, [Named(name)] + rest, links, true).at)
    decreases LINKS - depth, 0, 2
  {
    var next := at + [name];
    assert ([Named(name)] + rest)[1..] == rest;
    AskingNext(disk, at, name);
    left := links;
    if next in disk && disk[next].Link? {
      left := LinkFollows(disk, at, disk[next].target, rest, links, depth);
    }
  }

  lemma {:induction false} GateFromIsPlace(disk: Disk, at: Place, parts: seq<Part>, links: nat, depth: nat)
    requires WellFormed(disk) && Real(disk, at) && depth <= LINKS && links <= LINKS - depth
    requires Walk(disk, at, parts, links, true).Reached?
    ensures GateFrom(disk, at, false, parts, depth) == Walk(disk, at, parts, links, true).at
    decreases LINKS - depth, 1, |parts|
  {
    if parts != [] {
      match parts[0]
      case Here => GateFromIsPlace(disk, at, parts[1..], links, depth);
      case Up =>
        assert disk[at] == disk[at];
        GateFromIsPlace(disk, Parent(at), parts[1..], links, depth);
      case Named(name) =>
        assert parts == [Named(name)] + parts[1..];
        var left := NextFollows(disk, at, name, parts[1..], links, depth);
        var (next, gone) := Next(disk, at, name, depth);
        if !gone {
          GateFromIsPlace(disk, next, parts[1..], left, depth);
        }
    }
  }

  /** Whenever the system's own resolution succeeds, its last part there or not, the
      gate gives that same place. At depth `depth` the system has followed that many
      links already, so the gate's bound is never what stops it. */
  lemma {:induction false} GateIsPlace(disk: Disk, parts: seq<Part>, links: nat, depth: nat)
    requires WellFormed(disk) && depth <= LINKS && links <= LINKS - depth
    requires Walk(disk, [], parts, links, true).Reached?
    ensures Gate(disk, parts, depth) == Walk(disk, [], parts, links, true).at
    decreases LINKS - depth, 2, 0
  {
    if Canonical(disk, parts).Some? {
      ThereAlready(disk, [], parts, LINKS);
      MoreLinks(disk, [], parts, links, LINKS, true);
    } else {
      GateFromIsPlace(disk, [], parts, links, depth);
    }
  }

  lemma GatePathIsPlace(disk: Disk, cwd: Place, raw: Path)
    requires WellFormed(disk) && Real(disk, cwd)
    requires Walk(disk, if raw.absolute then [] else cwd, raw.parts, LINKS, true).Reached?
    ensures Gate(disk, Join(cwd, raw), 0) == Walk(disk, if raw.absolute then [] else cwd, raw.parts, LINKS, true).at
  {
    JoinLeadsThere(disk, cwd, raw, LINKS, true);
    GateIsPlace(disk, Join(cwd, raw), LINKS, 0);
  }

  // ── Past what is missing ──

  /** A path's parts taken by their letters alone, the last one last. */
  function Lexical(at: Place, parts: seq<Part>): Place {
    if parts == [] then at
    else
      var before := Lexical(at, parts[..|parts| - 1]);
      match parts[|parts| - 1]
      case Here => before
      case Up => Parent(before)
      case Named(name) => before + [name]
  }

  lemma {:induction false} LexicalFirst(at: Place, part: Part, rest: seq<Part>)
    ensures Lexical(at, [part] + rest) == Lexical(Lexical(at, [part]), rest)
    decreases |rest|
  {
    if rest == [] {
      assert [part] + rest == [part];
    } else {
      LexicalFirst(at, part, rest[..|rest| - 1]);
      assert ([part] + rest)[..|rest|] == [part] + rest[..|rest| - 1];
    }
  }

  lemma {:induction false} MissingIsLexical(disk: Disk, at: Place, parts: seq<Part>, depth: nat)
    requires depth <= LINKS
    ensures GateFrom(disk, at, true, parts, depth) == Lexical(at, parts)
    decreases |parts|
  {
    if parts != [] {
      assert parts == [parts[0]] + parts[1..];
      LexicalFirst(at, parts[0], parts[1..]);
      assert Lexical(at, [parts[0]]) == (match parts[0]
                                         case Here => at
                                         case Up => Parent(at)
                                         case Named(name) => at + [name]) by {
        assert [parts[0]][..0] == [];
      }
      MissingIsLexical(disk, Lexical(at, [parts[0]]), parts[1..], depth);
    }
  }

  lemma {:induction false} NamesAreLexical(at: Place, names: Place)
    ensures Lexical(at, Names(names)) == at + names
    decreases |names|
  {
    if names != [] {
      var n := |names| - 1;
      NamesAreLexical(at, names[..n]);
      assert Names(names)[..n] == Names(names[..n]);
      assert at + names[..n] + [names[n]] == at + names;
    } else {
      assert at + names == at;
    }
  }

  /** Where the system would make a thing that is not there, the gate is once it has
      seen it missing, and goes on by letters. */
  lemma {:induction false} GateFromPast(disk: Disk, at: Place, parts: seq<Part>, rest: seq<Part>, links: nat,
                                        depth: nat)
    requires WellFormed(disk) && Real(disk, at) && depth <= LINKS && links <= LINKS - depth
    requires Walk(disk, at, parts, links, true).Reached? && Walk(disk, at, parts, links, true).at !in disk
    ensures GateFrom(disk, at, false, parts + rest, depth) == Lexical(Walk(disk, at, parts, links, true).at, rest)
    decreases |parts|, links
  {
    assert parts != [];
    assert (parts + rest)[0] == parts[0] && (parts + rest)[1..] == parts[1..] + rest;
    match parts[0]
    case Here => GateFromPast(disk, at, parts[1..], rest, links, depth);
    case Up =>
      assert disk[at] == disk[at];
      GateFromPast(disk, Parent(at), parts[1..], rest, links, depth);
    case Named(name) =>
      assert parts == [Named(name)] + parts[1..];
      var left := NextFollows(disk, at, name, parts[1..], links, depth);
      var (next, gone) := Next(disk, at, name, depth);
      if gone {
        assert parts[1..] + rest == rest;
        MissingIsLexical(disk, next, rest, depth);
      } else {
        GateFromPast(disk, next, parts[1..], rest, left, depth);
      }
  }

  /** A path that goes on past something missing is placed where the system would make
      that thing, and from there by its letters: names under it, `..` back up. */
  lemma PastMissing(disk: Disk, parts: seq<Part>, rest: seq<Part>)
    requires WellFormed(disk) && rest != []
    requires Walk(disk, [], parts, LINKS, true).Reached? && Walk(disk, [], parts, LINKS, true).at !in disk
    ensures Gate(disk, parts + rest, 0) == Lexical(Walk(disk, [], parts, LINKS, true).at, rest)
  {
    if Canonical(disk, parts + rest).Some? {
      ThereAlready(disk, [], parts + rest, LINKS);
      WalkThrough(disk, [], parts, rest, LINKS);
      ThereAlready(disk, [], parts, LINKS);
      assert false;
    }
    GateFromPast(disk, [], parts, rest, LINKS, 0);
  }

  /** So names after a missing one are names under it. */
  lemma NamesPastMissing(disk: Disk, parts: seq<Part>, names: Place)
    requires WellFormed(disk)
    requires Walk(disk, [], parts, LINKS, true).Reached? && Walk(disk, [], parts, LINKS, true).at !in disk
    ensures Gate(disk, parts + Names(names), 0) == Walk(disk, [], parts, LINKS, true).at + names
  {
    if names == [] {
      assert parts + Names(names) == parts;
      GateIsPlace(disk, parts, LINKS, 0);
    } else {
      PastMissing(disk, parts, Names(names));
      NamesAreLexical(Walk(disk, [], parts, LINKS, true).at, names);
    }
  }

  // ── A place the gate gave stays where it is ──

  /** No link: something there, or a name free in a folder. */
  ghost predicate Settled(disk: Disk, at: Place) {
    Real(disk, at) || (at !in disk && at != [] && Parent(at) in disk && disk[Parent(at)] == Folder)
  }

  lemma {:induction false} PlacedIsSettled(disk: Disk, at: Place, parts: seq<Part>, links: nat)
    requires WellFormed(disk) && Real(disk, at) && Walk(disk, at, parts, links, true).Reached?
    ensures Settled(disk, Walk(disk, at, parts, links, true).at)
    decreases links, |parts|
  {
    if parts != [] {
      match parts[0]
      case Here => PlacedIsSettled(disk, at, parts[1..], links);
      case Up =>
        assert disk[at] == disk[at];
        PlacedIsSettled(disk, Parent(at), parts[1..], links);
      case Named(name) =>
        var next := at + [name];
        if next in disk {
          match disk[next]
          case Link(target) =>
            PlacedIsSettled(disk, if target.absolute then [] else at, target.parts + parts[1..], links - 1);
          case _ => PlacedIsSettled(disk, next, parts[1..], links);
        }
    }
  }

  /** The gate gives a place that, asked for again by its own name, is itself: what
      is compared with a folder's grant is not moved by a link. */
  lemma PlaceIsItself(disk: Disk, cwd: Place, raw: Path)
    requires WellFormed(disk) && Real(disk, cwd)
    requires Walk(disk, if raw.absolute then [] else cwd, raw.parts, LINKS, true).Reached?
    ensures var place := Gate(disk, Join(cwd, raw), 0);
      Settled(disk, place) && Gate(disk, Names(place), 0) == place
  {
    var place := Gate(disk, Join(cwd, raw), 0);
    GatePathIsPlace(disk, cwd, raw);
    PlacedIsSettled(disk, if raw.absolute then [] else cwd, raw.parts, LINKS);
    SettledLeadsThere(disk, place);
    GateIsPlace(disk, Names(place), LINKS, 0);
  }

  lemma SettledLeadsThere(disk: Disk, at: Place)
    requires WellFormed(disk) && Settled(disk, at)
    ensures Walk(disk, [], Names(at), LINKS, true) == Reached(at, LINKS)
  {
    if Real(disk, at) {
      NamesLeadThere(disk, at, 0, [], LINKS, true);
      assert Names(at)[0..] + [] == Names(at) && at[..0] == [];
    } else {
      var up, last := Parent(at), [Named(at[|at| - 1])];
      NamesLeadThere(disk, up, 0, last, LINKS, true);
      assert Names(up)[0..] + last == Names(at) && up[..0] == [];
      assert up + [at[|at| - 1]] == at;
    }
  }
}
