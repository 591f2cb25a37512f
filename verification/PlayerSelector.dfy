/** Which players a console command acts upon (`MultiUserCommandHelper` in server/Server/Program.cs).
    Clients are equal when their ids are (server/Server/Client.cs), so a set of clients is a set of ids. */
module PlayerSelector {
  import opened Option
  import opened PacketHeader

  datatype Player = Player(id: Guid, name: string, connected: bool)

  /** The library calls: `ToLower`, `StartsWith`, which compares by culture, and `Guid.TryParse`. */
  datatype Library = Library(
    toLower: string -> string, startsWith: (string, string) -> bool, tryParse: string -> Option<Guid>)

  const ALL := "*"
  const ALL_BUT := "!*"

  predicate Matches(lib: Library, c: Player, arg: string) {
    && c.connected
    && (lib.startsWith(lib.toLower(c.name), lib.toLower(arg)) || lib.tryParse(arg) == Some(c.id))
  }

  /** `search`: the connected clients that an argument matches, in the order of the list. */
  function Search(lib: Library, clients: seq<Player>, arg: string): (found: seq<Player>)
    ensures forall c :: c in found <==> c in clients && Matches(lib, c, arg)
  {
    if clients == [] then []
    else (if Matches(lib, clients[0], arg) then [clients[0]] else []) + Search(lib, clients[1..], arg)
  }

  /** The matches keep the order of the list, and each is there as often as in the list. */
  lemma {:induction false} SearchConcat(lib: Library, a: seq<Player>, b: seq<Player>, arg: string)
    ensures Search(lib, a + b, arg) == Search(lib, a, arg) + Search(lib, b, arg)
  {
    if a == [] {
      assert a + b == b;
    } else {
      assert (a + b)[1..] == a[1..] + b;
      SearchConcat(lib, a[1..], b, arg);
    }
  }

  /** `FirstOrDefault`: the position of the first with exactly this name. */
  function Exact(found: seq<Player>, name: string): (k: Option<nat>)
    ensures k.Some? ==> k.value < |found| && found[k.value].name == name
    ensures forall j :: 0 <= j < (if k.Some? then k.value else |found|) ==> found[j].name != name
  {
    if found == [] then None
    else if found[0].name == name then Some(0)
    else match Exact(found[1..], name)
      case None =>
        assert forall j :: 1 <= j < |found| ==> found[j] == found[1..][j - 1];
        None
      case Some(k) =>
        assert forall j :: 1 <= j <= k ==> found[j] == found[1..][j - 1];
        Some(k + 1)
  }

  function Ids(clients: seq<Player>): set<Guid> {
    set c | c in clients :: c.id
  }

  function Connected(clients: seq<Player>): set<Guid> {
    set c | c in clients && c.connected :: c.id
  }

  // ---------------------------------------------------------------- what an argument stands for

  datatype Outcome = NotFound | Resolved(id: Guid) | Ambiguous(ids: set<Guid>)

  function Resolve(lib: Library, clients: seq<Player>, arg: string): Outcome {
    var found := Search(lib, clients, arg);
    if found == [] then NotFound
    else if |found| == 1 then Resolved(found[0].id)
    else match Exact(found, arg)
      case Some(k) => Resolved(found[k].id)
      case None => Ambiguous(Ids(found))
  }

  /** Nobody before this match has exactly this name. */
  predicate IsFirstNamed(found: seq<Player>, k: nat, name: string) {
    k < |found| && found[k].name == name && forall j :: 0 <= j < k ==> found[j].name != name
  }

  /** What an argument stands for: the first match with exactly its name, if there is one; else the only
      match; with several matches and none of that name it is ambiguous about all of them. */
  lemma ResolvesExactly(lib: Library, clients: seq<Player>, arg: string, k: nat)
    ensures var (found, outcome) := (Search(lib, clients, arg), Resolve(lib, clients, arg));
            && (IsFirstNamed(found, k, arg) ==> outcome == Resolved(found[k].id))
            && (|found| == 1 ==> outcome == Resolved(found[0].id))
            && (outcome.NotFound? <==> found == [])
            && (outcome.Ambiguous? <==> |found| >= 2 && forall c :: c in found ==> c.name != arg)
            && (outcome.Ambiguous? ==> forall id :: id in outcome.ids <==> exists c :: c in found && c.id == id)
  {
    var found := Search(lib, clients, arg);
    var e := Exact(found, arg);
    hide Search, Exact;
    if e.Some? {
      assert found[e.value] in found;
    }
  }

  /** A text folds case letter by letter and a longer text starts with its beginning. */
  ghost predicate FoldsAndStarts(lib: Library) {
    && (forall a, b :: lib.toLower(a + b) == lib.toLower(a) + lib.toLower(b))
    && (forall a, b :: lib.startsWith(a, b) <==> |b| <= |a| && a[..|b|] == b)
  }

  /** With such library calls a connected player is matched by every beginning of its name, in any case, and
      an argument that is no identifier matches nobody else. */
  lemma BeginningsMatch(lib: Library, c: Player, arg: string)
    requires FoldsAndStarts(lib) && c.connected && lib.tryParse(arg) == None
    ensures Matches(lib, c, arg)
            <==> exists rest :: lib.toLower(c.name) == lib.toLower(arg) + rest
    ensures forall n :: 0 <= n <= |c.name| && lib.toLower(arg) == lib.toLower(c.name[..n]) ==> Matches(lib, c, arg)
  {
    hide FoldsAndStarts;
    var name, low := lib.toLower(c.name), lib.toLower(arg);
    StartsIff(lib, name, low);
    forall n | 0 <= n <= |c.name| && low == lib.toLower(c.name[..n]) ensures Matches(lib, c, arg) {
      assert c.name == c.name[..n] + c.name[n..];
      FoldOfConcat(lib, c.name[..n], c.name[n..]);
      assert name == low + lib.toLower(c.name[n..]);
    }
  }

  lemma StartsIff(lib: Library, name: string, low: string)
    requires FoldsAndStarts(lib)
    ensures lib.startsWith(name, low) <==> exists rest :: name == low + rest
  {
    assert lib.startsWith(name, low) <==> |low| <= |name| && name[..|low|] == low;
    hide FoldsAndStarts;
    if |low| <= |name| && name[..|low|] == low {
      assert name == low + name[|low|..];
    }
  }

  lemma FoldOfConcat(lib: Library, a: string, b: string)
    requires FoldsAndStarts(lib)
    ensures lib.toLower(a + b) == lib.toLower(a) + lib.toLower(b)
  {
  }

  /** A connected player is matched by its identifier, whatever its name. */
  lemma IdentifierMatches(lib: Library, clients: seq<Player>, c: Player, arg: string)
    requires c in clients && c.connected && lib.tryParse(arg) == Some(c.id)
    ensures c in Search(lib, clients, arg) && !Resolve(lib, clients, arg).NotFound?
  {
  }

  /** The arguments that are looked up. */
  function Processed(args: seq<string>): seq<string>
    requires args != []
  {
    if args[0] == ALL then [] else if args[0] == ALL_BUT then args[1..] else args
  }

  /** No later ambiguous argument matches this player. */
  predicate KeptAfter(lib: Library, clients: seq<Player>, args: seq<string>, i: nat, id: Guid) {
    forall j :: i < j < |args| ==>
      !(Resolve(lib, clients, args[j]).Ambiguous? && id in Resolve(lib, clients, args[j]).ids)
  }

  /** Some argument resolves to the player and no later one is ambiguous about it. */
  predicate IsAdded(lib: Library, clients: seq<Player>, args: seq<string>, id: Guid) {
    exists i :: 0 <= i < |args| && Resolve(lib, clients, args[i]) == Resolved(id)
                && KeptAfter(lib, clients, args, i, id)
  }

  /** The argument resolves to the player or is ambiguous about it. */
  predicate Touches(lib: Library, clients: seq<Player>, arg: string, id: Guid) {
    match Resolve(lib, clients, arg)
    case NotFound => false
    case Resolved(one) => one == id
    case Ambiguous(ids) => id in ids
  }

  predicate IsExcluded(lib: Library, clients: seq<Player>, args: seq<string>, id: Guid) {
    exists i :: 0 <= i < |args| && Touches(lib, clients, args[i], id)
  }

  /** The players a command acts upon. */
  predicate ActsUpon(lib: Library, clients: seq<Player>, args: seq<string>, id: Guid)
    requires args != []
  {
    if args[0] == ALL then id in Connected(clients)
    else if args[0] == ALL_BUT then id in Connected(clients) && !IsExcluded(lib, clients, args[1..], id)
    else IsAdded(lib, clients, args, id)
  }

  /** A command for one argument that is somebody's exact name acts upon that player alone, whoever else
      the argument matches. */
  lemma ExactNameActs(lib: Library, clients: seq<Player>, arg: string, k: nat, id: Guid)
    requires arg != ALL && arg != ALL_BUT && IsFirstNamed(Search(lib, clients, arg), k, arg)
    ensures ActsUpon(lib, clients, [arg], id) <==> id == Search(lib, clients, arg)[k].id
  {
    ResolvesExactly(lib, clients, arg, k);
    hide Resolve, Search;
    assert [arg][0] == arg && KeptAfter(lib, clients, [arg], 0, id);
  }

  // ---------------------------------------------------------------- one argument after the other

  /** What one argument does to the set. */
  function Apply(acting: set<Guid>, outcome: Outcome, except: bool): set<Guid> {
    match outcome
    case NotFound => acting
    case Resolved(id) => if except then acting - {id} else acting + {id}
    case Ambiguous(ids) => acting - ids
  }

  function ApplyAll(lib: Library, clients: seq<Player>, args: seq<string>, start: set<Guid>, except: bool): set<Guid>
    decreases |args|
  {
    if args == [] then start
    else
      var last := |args| - 1;
      Apply(ApplyAll(lib, clients, args[..last], start, except), Resolve(lib, clients, args[last]), except)
  }

  lemma IsAddedNext(lib: Library, clients: seq<Player>, args: seq<string>, arg: string, id: Guid)
    ensures IsAdded(lib, clients, args + [arg], id)
            <==> match Resolve(lib, clients, arg)
                 case NotFound => IsAdded(lib, clients, args, id)
                 case Resolved(one) => one == id || IsAdded(lib, clients, args, id)
                 case Ambiguous(ids) => id !in ids && IsAdded(lib, clients, args, id)
  {
    hide Resolve;
    var all, n, outcome := args + [arg], |args|, Resolve(lib, clients, arg);
    assert all[n] == arg && forall i :: 0 <= i < n ==> all[i] == args[i];
    if outcome == Resolved(id) {
      assert KeptAfter(lib, clients, all, n, id);
    }
    forall i | 0 <= i < n
      ensures KeptAfter(lib, clients, all, i, id)
              <==> KeptAfter(lib, clients, args, i, id) && !(outcome.Ambiguous? && id in outcome.ids)
    {
      KeptAfterNext(lib, clients, args, arg, i, id);
    }
    if IsAdded(lib, clients, args, id) && !(outcome.Ambiguous? && id in outcome.ids) {
      var i :| 0 <= i < n && Resolve(lib, clients, args[i]) == Resolved(id) && KeptAfter(lib, clients, args, i, id);
      assert Resolve(lib, clients, all[i]) == Resolved(id) && KeptAfter(lib, clients, all, i, id);
    }
  }

  lemma KeptAfterNext(lib: Library, clients: seq<Player>, args: seq<string>, arg: string, i: nat, id: Guid)
    requires i < |args|
    ensures KeptAfter(lib, clients, args + [arg], i, id)
            <==> KeptAfter(lib, clients, args, i, id)
                 && !(Resolve(lib, clients, arg).Ambiguous? && id in Resolve(lib, clients, arg).ids)
  {
    hide Resolve;
    var all := args + [arg];
    assert all[|args|] == arg && forall j :: 0 <= j < |args| ==> all[j] == args[j];
  }

  lemma IsExcludedNext(lib: Library, clients: seq<Player>, args: seq<string>, arg: string, id: Guid)
    ensures IsExcluded(lib, clients, args + [arg], id)
            <==> IsExcluded(lib, clients, args, id) || Touches(lib, clients, arg, id)
  {
    hide Touches;
    var all := args + [arg];
    assert all[|args|] == arg && forall i :: 0 <= i < |args| ==> all[i] == args[i];
  }

  /** In add mode: who some argument resolves to and no later ambiguous argument matches. */
  lemma {:induction false} AddedExactly(lib: Library, clients: seq<Player>, args: seq<string>, id: Guid)
    ensures id in ApplyAll(lib, clients, args, {}, false) <==> IsAdded(lib, clients, args, id)
    decreases |args|
  {
    if args != [] {
      var before, arg := args[..|args| - 1], args[|args| - 1];
      assert args == before + [arg];
      AddedExactly(lib, clients, before, id);
      IsAddedNext(lib, clients, before, arg, id);
      hide Resolve, IsAdded;
    }
  }

  /** In "!*" mode: the connected players without all resolved and all ambiguous matches. */
  lemma {:induction false} ExcludedExactly(
      lib: Library, clients: seq<Player>, args: seq<string>, start: set<Guid>, id: Guid)
    ensures id in ApplyAll(lib, clients, args, start, true) <==> id in start && !IsExcluded(lib, clients, args, id)
    decreases |args|
  {
    if args != [] {
      var before, arg := args[..|args| - 1], args[|args| - 1];
      assert args == before + [arg];
      ExcludedExactly(lib, clients, before, start, id);
      IsExcludedNext(lib, clients, before, arg, id);
      hide Resolve, IsExcluded;
    }
  }

  /** The order of the arguments after "!*", and how often they are given, does not matter. */
  lemma OrderOfExclusions(lib: Library, clients: seq<Player>, args: seq<string>, others: seq<string>, id: Guid)
    requires forall arg :: arg in args <==> arg in others
    ensures ActsUpon(lib, clients, [ALL_BUT] + args, id) == ActsUpon(lib, clients, [ALL_BUT] + others, id)
  {
    assert ([ALL_BUT] + args)[1..] == args && ([ALL_BUT] + others)[1..] == others;
    SameExclusions(lib, clients, args, others, id);
    SameExclusions(lib, clients, others, args, id);
  }

  lemma SameExclusions(lib: Library, clients: seq<Player>, args: seq<string>, others: seq<string>, id: Guid)
    requires forall arg :: arg in args ==> arg in others
    ensures IsExcluded(lib, clients, args, id) ==> IsExcluded(lib, clients, others, id)
  {
    hide Touches;
    if IsExcluded(lib, clients, args, id) {
      var i :| 0 <= i < |args| && Touches(lib, clients, args[i], id);
      assert args[i] in others;
      var j :| 0 <= j < |others| && others[j] == args[i];
    }
  }

  /** In add mode it does matter: an ambiguous argument takes off only who was added before it. */
  lemma OrderOfAdditions(lib: Library, clients: seq<Player>, one: string, many: string, id: Guid)
    requires Resolve(lib, clients, one) == Resolved(id)
    requires Resolve(lib, clients, many).Ambiguous? && id in Resolve(lib, clients, many).ids
    requires one != ALL && one != ALL_BUT && many != ALL && many != ALL_BUT
    ensures !ActsUpon(lib, clients, [one, many], id) && ActsUpon(lib, clients, [many, one], id)
  {
    IsAddedNext(lib, clients, [one], many, id);
    IsAddedNext(lib, clients, [many], one, id);
    assert [one] + [many] == [one, many] && [many] + [one] == [many, one];
    hide IsAdded;
  }

  // ---------------------------------------------------------------- the loop

  type Ambiguity = (string, seq<Player>)

  /** The arguments that nobody matches. */
  function NotFounds(lib: Library, clients: seq<Player>, args: seq<string>): set<string> {
    set arg | arg in args && Resolve(lib, clients, arg).NotFound?
  }

  predicate Names(ambig: seq<Ambiguity>, arg: string) {
    exists i :: 0 <= i < |ambig| && ambig[i].0 == arg
  }

  /** Where an argument is first given. */
  function FirstIndex(args: seq<string>, arg: string): (k: nat)
    ensures k < |args| <==> arg in args
    ensures k <= |args| && (k < |args| ==> args[k] == arg) && forall j :: 0 <= j < k ==> args[j] != arg
  {
    if args == [] || args[0] == arg then 0
    else
      var k := FirstIndex(args[1..], arg);
      assert forall j :: 1 <= j < |args| ==> args[j] == args[1..][j - 1];
      k + 1
  }

  lemma FirstIndexNext(args: seq<string>, more: string, arg: string)
    ensures arg in args ==> FirstIndex(args + [more], arg) == FirstIndex(args, arg)
    ensures more !in args ==> FirstIndex(args + [more], more) == |args|
  {
    var all := args + [more];
    assert forall j :: 0 <= j < |args| ==> all[j] == args[j];
    assert all[|args|] == more;
  }

  /** Each ambiguous argument is reported once, with the clients it matches, in the order in which they
      are first given, and no other argument is. */
  ghost predicate IsReport(lib: Library, clients: seq<Player>, ambig: seq<Ambiguity>, args: seq<string>) {
    && (forall i :: 0 <= i < |ambig| ==> ambig[i].1 == Search(lib, clients, ambig[i].0))
    && (forall arg :: Names(ambig, arg) <==> arg in args && Resolve(lib, clients, arg).Ambiguous?)
    && forall i, j :: 0 <= i < j < |ambig| ==> FirstIndex(args, ambig[i].0) < FirstIndex(args, ambig[j].0)
  }

  lemma ReportsAreGiven(lib: Library, clients: seq<Player>, ambig: seq<Ambiguity>, args: seq<string>, more: string)
    requires IsReport(lib, clients, ambig, args)
    ensures forall i :: 0 <= i < |ambig| ==>
              ambig[i].0 in args && FirstIndex(args + [more], ambig[i].0) == FirstIndex(args, ambig[i].0) < |args|
  {
    hide Resolve, Search, FirstIndex;
    forall i | 0 <= i < |ambig|
      ensures ambig[i].0 in args && FirstIndex(args + [more], ambig[i].0) == FirstIndex(args, ambig[i].0) < |args|
    {
      assert Names(ambig, ambig[i].0);
      FirstIndexNext(args, more, ambig[i].0);
    }
  }

  lemma NamesNext(ambig: seq<Ambiguity>, one: Ambiguity, arg: string)
    ensures Names(ambig + [one], arg) <==> Names(ambig, arg) || arg == one.0
  {
    var more := ambig + [one];
    if Names(ambig, arg) {
      var i :| 0 <= i < |ambig| && ambig[i].0 == arg;
      assert more[i].0 == arg;
    }
    assert more[|ambig|].0 == one.0;
  }

  lemma ReportStays(lib: Library, clients: seq<Player>, ambig: seq<Ambiguity>, args: seq<string>, arg: string)
    requires IsReport(lib, clients, ambig, args)
    requires Resolve(lib, clients, arg).Ambiguous? ==> Names(ambig, arg)
    ensures IsReport(lib, clients, ambig, args + [arg])
  {
    ReportsAreGiven(lib, clients, ambig, args, arg);
    hide Resolve, Search, FirstIndex, Names;
    assert forall a :: a in args + [arg] <==> a in args || a == arg;
  }

  lemma ReportGrowsInOrder(
      lib: Library, clients: seq<Player>, ambig: seq<Ambiguity>, args: seq<string>, arg: string)
    requires IsReport(lib, clients, ambig, args) && arg !in args
    ensures var more := ambig + [(arg, Search(lib, clients, arg))];
            forall i, j :: 0 <= i < j < |more| ==>
              FirstIndex(args + [arg], more[i].0) < FirstIndex(args + [arg], more[j].0)
  {
    var more := ambig + [(arg, Search(lib, clients, arg))];
    ReportsAreGiven(lib, clients, ambig, args, arg);
    FirstIndexNext(args, arg, arg);
    hide Resolve, Search, FirstIndex, Names;
    forall i, j | 0 <= i < j < |more|
      ensures FirstIndex(args + [arg], more[i].0) < FirstIndex(args + [arg], more[j].0)
    {
      assert more[i] == ambig[i];
      if j < |ambig| {
        assert more[j] == ambig[j];
      }
    }
  }

  lemma ReportGrows(lib: Library, clients: seq<Player>, ambig: seq<Ambiguity>, args: seq<string>, arg: string)
    requires IsReport(lib, clients, ambig, args)
    requires Resolve(lib, clients, arg).Ambiguous? && !Names(ambig, arg)
    ensures IsReport(lib, clients, ambig + [(arg, Search(lib, clients, arg))], args + [arg])
  {
    var one := (arg, Search(lib, clients, arg));
    var more := ambig + [one];
    assert arg !in args;
    ReportGrowsInOrder(lib, clients, ambig, args, arg);
    hide Resolve, Search, FirstIndex, Names;
    forall a ensures Names(more, a) <==> a in args + [arg] && Resolve(lib, clients, a).Ambiguous? {
      NamesNext(ambig, one, a);
    }
    forall i | 0 <= i < |more| ensures more[i].1 == Search(lib, clients, more[i].0) {
      assert more[i] == if i < |ambig| then ambig[i] else one;
    }
  }

  lemma ReportNext(lib: Library, clients: seq<Player>, ambig: seq<Ambiguity>, args: seq<string>, arg: string)
    requires IsReport(lib, clients, ambig, args)
    ensures var outcome := Resolve(lib, clients, arg);
            && (!outcome.Ambiguous? || Names(ambig, arg) ==> IsReport(lib, clients, ambig, args + [arg]))
            && (outcome.Ambiguous? && !Names(ambig, arg) ==>
                  IsReport(lib, clients, ambig + [(arg, Search(lib, clients, arg))], args + [arg]))
  {
    hide *;
    if Resolve(lib, clients, arg).Ambiguous? && !Names(ambig, arg) {
      ReportGrows(lib, clients, ambig, args, arg);
    } else {
      ReportStays(lib, clients, ambig, args, arg);
    }
  }

  lemma NotFoundNext(lib: Library, clients: seq<Player>, args: seq<string>, arg: string)
    ensures NotFounds(lib, clients, args + [arg])
            == NotFounds(lib, clients, args) + (if Resolve(lib, clients, arg).NotFound? then {arg} else {})
  {
    hide Resolve;
    assert forall a :: a in args + [arg] <==> a in args || a == arg;
  }

  /** `ambig.Any(x => x.arg == arg)`. */
  method IsReported(ambig: seq<Ambiguity>, arg: string) returns (reported: bool)
    ensures reported <==> Names(ambig, arg)
  {
    for i := 0 to |ambig|
      invariant forall j :: 0 <= j < i ==> ambig[j].0 != arg
    {
      if ambig[i].0 == arg {
        return true;
      }
    }
    return false;
  }

  /** `foreach (var rem in search.ToList()) toActUpon.Remove(rem)`. */
  method RemoveEach(toActUpon: set<Guid>, search: seq<Player>) returns (left: set<Guid>)
    ensures left == toActUpon - Ids(search)
  {
    left := toActUpon;
    for i := 0 to |search|
      invariant left == toActUpon - Ids(search[..i])
    {
      assert search[..i + 1] == search[..i] + [search[i]];
      assert Ids(search[..i + 1]) == Ids(search[..i]) + {search[i].id};
      left := left - {search[i].id};
    }
    assert search[..|search|] == search;
  }

  /** The body of the loop. */
  method Consider(lib: Library, clients: seq<Player>, arg: string, except: bool,
                  failToFind: set<string>, toActUpon: set<Guid>, ambig: seq<Ambiguity>)
    returns (fails: set<string>, acting: set<Guid>, reports: seq<Ambiguity>)
    ensures acting == Apply(toActUpon, Resolve(lib, clients, arg), except)
    ensures fails == failToFind + (if Resolve(lib, clients, arg).NotFound? then {arg} else {})
    ensures reports == if Resolve(lib, clients, arg).Ambiguous? && !Names(ambig, arg)
                       then ambig + [(arg, Search(lib, clients, arg))] else ambig
  {
    hide Exact, Search, Matches, Names, Ids;
    fails, acting, reports := failToFind, toActUpon, ambig;
    var search := Search(lib, clients, arg);
    if search == [] {
      fails := fails + {arg};
    } else if |search| > 1 {
      var exact := Exact(search, arg);
      if exact.Some? {
        var id := search[exact.value].id;
        acting := if except then acting - {id} else acting + {id};
      } else {
        var reported := IsReported(ambig, arg);
        if !reported {
          reports := reports + [(arg, search)];
        }
        acting := RemoveEach(acting, search);
      }
    } else {
      acting := if except then acting - {search[0].id} else acting + {search[0].id};
    }
  }

  lemma Nothing(lib: Library, clients: seq<Player>, args: seq<string>)
    requires args != []
    ensures NotFounds(lib, clients, []) == {} && IsReport(lib, clients, [], [])
    ensures Processed(args) == if args[0] == ALL then [] else if args[0] == ALL_BUT then args[1..] else args
    ensures args[0] == ALL ==> forall id :: id in Connected(clients) <==> ActsUpon(lib, clients, args, id)
  {
  }

  lemma NothingApplied(lib: Library, clients: seq<Player>, start: set<Guid>, except: bool)
    ensures ApplyAll(lib, clients, [], start, except) == start
  {
  }

  method MultiUserCommandHelper(lib: Library, clients: seq<Player>, args: seq<string>)
    returns (failToFind: set<string>, toActUpon: set<Guid>, ambig: seq<Ambiguity>)
    requires args != []
    ensures forall id :: id in toActUpon <==> ActsUpon(lib, clients, args, id)
    ensures failToFind == NotFounds(lib, clients, Processed(args))
    ensures IsReport(lib, clients, ambig, Processed(args))
  {
    hide *;
    failToFind, ambig := {}, [];
    Nothing(lib, clients, args);
    if args[0] == ALL {
      toActUpon := Connected(clients);
      return;
    }
    var except := args[0] == ALL_BUT;
    toActUpon := if except then Connected(clients) else {};
    ghost var start, todo := toActUpon, Processed(args);
    var first := if except then 1 else 0;
    NothingApplied(lib, clients, start, except);
    assert todo == args[first..] && todo[..0] == [];
    for i := first to |args|
      invariant toActUpon == ApplyAll(lib, clients, todo[..i - first], start, except)
      invariant failToFind == NotFounds(lib, clients, todo[..i - first])
      invariant IsReport(lib, clients, ambig, todo[..i - first])
    {
      ghost var before := todo[..i - first];
      assert todo[..i + 1 - first] == before + [args[i]];
      ReportNext(lib, clients, ambig, before, args[i]);
      NotFoundNext(lib, clients, before, args[i]);
      ApplyNext(lib, clients, before, args[i], start, except);
      failToFind, toActUpon, ambig := Consider(lib, clients, args[i], except, failToFind, toActUpon, ambig);
    }
    assert todo[..|todo|] == todo;
    forall id ensures id in toActUpon <==> ActsUpon(lib, clients, args, id) {
      SelectedExactly(lib, clients, args, id);
    }
  }

  lemma ApplyNext(lib: Library, clients: seq<Player>, args: seq<string>, arg: string, start: set<Guid>, except: bool)
    ensures ApplyAll(lib, clients, args + [arg], start, except)
            == Apply(ApplyAll(lib, clients, args, start, except), Resolve(lib, clients, arg), except)
  {
    assert (args + [arg])[..|args|] == args;
  }

  lemma SelectedExactly(lib: Library, clients: seq<Player>, args: seq<string>, id: Guid)
    requires args != [] && args[0] != ALL
    ensures var except := args[0] == ALL_BUT;
            id in ApplyAll(lib, clients, Processed(args), if except then Connected(clients) else {}, except)
            <==> ActsUpon(lib, clients, args, id)
  {
    hide ApplyAll, IsAdded, IsExcluded;
    if args[0] == ALL_BUT {
      ExcludedExactly(lib, clients, args[1..], Connected(clients), id);
    } else {
      AddedExactly(lib, clients, args, id);
    }
  }

  /** Every argument that is looked up is in exactly one class: not found, reported as ambiguous, or
      resolved to one connected client that it matches. */
  lemma OneClassEach(lib: Library, clients: seq<Player>, ambig: seq<Ambiguity>, args: seq<string>, arg: string)
    requires arg in args && IsReport(lib, clients, ambig, args)
    ensures !(arg in NotFounds(lib, clients, args) && Names(ambig, arg))
    ensures !(arg in NotFounds(lib, clients, args)) && !Names(ambig, arg) <==> Resolve(lib, clients, arg).Resolved?
    ensures Resolve(lib, clients, arg).Resolved? ==>
              exists c :: c in clients && c.id == Resolve(lib, clients, arg).id && Matches(lib, c, arg)
    ensures arg in NotFounds(lib, clients, args) <==> forall c :: c in clients ==> !Matches(lib, c, arg)
  {
    hide Matches;
    var found := Search(lib, clients, arg);
    if found != [] {
      assert found[0] in found;
    }
  }
}
