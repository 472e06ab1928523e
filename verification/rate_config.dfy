/** The rate limit configuration: nested descriptor lists are checked and loaded into a trie of maps, in
    which a request's descriptor is looked up entry by entry. */
module RateConfig {
  import opened Common
  import opened RateAccounting
  import opened RateStore

  datatype YamlRateLimit = YamlRateLimit(requestsPerUnit: uint32, unit: string)

  datatype YamlDescriptor = YamlDescriptor(
    key: string, value: string, rateLimit: Option<YamlRateLimit>, descriptors: seq<YamlDescriptor>)

  /** A parsed file. A file that the YAML reader or the key check refuses has no root. */
  datatype YamlRoot = YamlRoot(domain: string, descriptors: seq<YamlDescriptor>)

  datatype File = File(name: string, root: Option<YamlRoot>)

  datatype RateLimit = RateLimit(fullKey: string, requestsPerUnit: uint32, unit: Unit)

  datatype Node = Node(descriptors: map<string, Node>, limit: Option<RateLimit>)

  datatype ConfigError =
    | EmptyKey
    | DuplicateKey(compositeKey: string)
    | InvalidUnit(unit: string)
    | InvalidFile
    | EmptyDomain
    | DuplicateDomain(domain: string)

  datatype Result<T> = Success(value: T) | Failure(error: ConfigError)

  // ---------- one descriptor ----------

  function ToUpper(s: string): string {
    if s == "" then ""
    else [if 'a' <= s[0] <= 'z' then s[0] - 'a' + 'A' else s[0]] + ToUpper(s[1..])
  }

  /** UNKNOWN is a unit of the wire format and no unit of a limit. */
  function ParseUnit(s: string): Option<Unit> {
    match ToUpper(s)
    case "SECOND" => Some(SECOND)
    case "MINUTE" => Some(MINUTE)
    case "HOUR" => Some(HOUR)
    case "DAY" => Some(DAY)
    case _ => None
  }

  /** The name of a unit in the wire format. */
  function UnitName(u: Unit): string {
    match u
    case SECOND => "SECOND"
    case MINUTE => "MINUTE"
    case HOUR => "HOUR"
    case DAY => "DAY"
  }

  /** `c` is the letter `upper` or its lower-case form. */
  predicate SameLetter(c: char, upper: char) {
    c == upper || ('A' <= upper <= 'Z' && c == upper - 'A' + 'a')
  }

  /** `s` is the name of the unit in any mixture of cases. */
  predicate Spells(s: string, u: Unit) {
    |s| == |UnitName(u)| && forall i :: 0 <= i < |s| ==> SameLetter(s[i], UnitName(u)[i])
  }

  lemma {:induction false} ToUpperAt(s: string)
    ensures |ToUpper(s)| == |s|
    ensures forall i :: 0 <= i < |s| ==> ToUpper(s)[i] == if 'a' <= s[i] <= 'z' then s[i] - 'a' + 'A' else s[i]
  {
    if s != "" {
      ToUpperAt(s[1..]);
    }
  }

  lemma ParsesIf(s: string, u: Unit)
    ensures ToUpper(s) == UnitName(u) <==> Spells(s, u)
  {
    ToUpperAt(s);
    hide ToUpper;
    assert forall i :: 0 <= i < |UnitName(u)| ==> 'A' <= UnitName(u)[i] <= 'Z';
    if Spells(s, u) {
      assert forall i :: 0 <= i < |s| ==> SameLetter(s[i], UnitName(u)[i]);
      assert ToUpper(s) == UnitName(u);
    }
    if ToUpper(s) == UnitName(u) {
      forall i | 0 <= i < |s| ensures SameLetter(s[i], UnitName(u)[i]) {
        assert ToUpper(s)[i] == UnitName(u)[i];
      }
    }
  }

  /** A unit is accepted exactly if it is spelled like its name, in any mixture of cases. */
  lemma ParseUnitExactly(s: string, u: Unit)
    ensures ParseUnit(s) == Some(u) <==> Spells(s, u)
  {
    ParsesIf(s, u);
    hide ToUpper;
    assert |UnitName(SECOND)| == 6 && |UnitName(MINUTE)| == 6 && |UnitName(HOUR)| == 4 && |UnitName(DAY)| == 3;
    assert UnitName(SECOND)[0] != UnitName(MINUTE)[0];
  }

  function FinalKey(d: YamlDescriptor): string {
    if d.value == "" then d.key else d.key + "_" + d.value
  }

  predicate UnitIsValid(d: YamlDescriptor) {
    d.rateLimit.Some? ==> ParseUnit(d.rateLimit.value.unit).Some?
  }

  /** The limit that a descriptor sets, under its full name. */
  function LimitOf(d: YamlDescriptor, parentKey: string): Option<RateLimit>
    requires UnitIsValid(d)
  {
    if d.rateLimit.None? then None
    else
      var l := d.rateLimit.value;
      Some(RateLimit(parentKey + FinalKey(d), l.requestsPerUnit, ParseUnit(l.unit).value))
  }

  // ---------- loading ----------

  /** The trie of a list, descriptor by descriptor, or the first error met. */
  function LoadDescriptors(ds: seq<YamlDescriptor>, parentKey: string): Result<map<string, Node>>
    decreases ds
  {
    if ds == [] then Success(map[])
    else
      var n := |ds| - 1;
      match LoadDescriptors(ds[..n], parentKey)
      case Failure(e) => Failure(e)
      case Success(m) => LoadOne(m, ds[n], parentKey)
  }

  function LoadOne(m: map<string, Node>, d: YamlDescriptor, parentKey: string): Result<map<string, Node>>
    decreases d
  {
    if d.key == "" then Failure(EmptyKey)
    else if FinalKey(d) in m then Failure(DuplicateKey(parentKey + FinalKey(d)))
    else if !UnitIsValid(d) then Failure(InvalidUnit(d.rateLimit.value.unit))
    else
      match LoadDescriptors(d.descriptors, parentKey + FinalKey(d) + ".")
      case Failure(e) => Failure(e)
      case Success(sub) => Success(m[FinalKey(d) := Node(sub, LimitOf(d, parentKey))])
  }

  /** A list that may be loaded: at every level the keys are there and distinct, and every limit has a
      unit. */
  predicate Acceptable(ds: seq<YamlDescriptor>)
    decreases ds
  {
    (forall i :: 0 <= i < |ds| ==> ds[i].key != "" && UnitIsValid(ds[i]) && Acceptable(ds[i].descriptors))
    && Distinct(ds)
  }

  predicate Distinct(ds: seq<YamlDescriptor>) {
    forall i, j :: 0 <= i < j < |ds| ==> FinalKey(ds[i]) != FinalKey(ds[j])
  }

  /** The last descriptor of a list with this key. */
  function FindKey(ds: seq<YamlDescriptor>, key: string): (r: Option<YamlDescriptor>)
    ensures r.Some? ==> r.value in ds && FinalKey(r.value) == key
    ensures r.None? <==> forall d :: d in ds ==> FinalKey(d) != key
  {
    if ds == [] then None
    else
      var n := |ds| - 1;
      assert forall d :: d in ds <==> d == ds[n] || d in ds[..n];
      if FinalKey(ds[n]) == key then Some(ds[n]) else FindKey(ds[..n], key)
  }

  lemma DistinctSplits(ds: seq<YamlDescriptor>)
    requires ds != []
    ensures var n := |ds| - 1; Distinct(ds) <==> Distinct(ds[..n]) && FindKey(ds[..n], FinalKey(ds[n])).None?
  {
    hide FindKey, FinalKey;
    var n := |ds| - 1;
    var init := ds[..n];
    assert forall i :: 0 <= i < n ==> init[i] == ds[i] && ds[i] in init;
    if FindKey(init, FinalKey(ds[n])).Some? {
      var i :| 0 <= i < n && init[i] == FindKey(init, FinalKey(ds[n])).value;
      assert FinalKey(ds[i]) == FinalKey(ds[n]);
    }
  }

  lemma AcceptableSplits(ds: seq<YamlDescriptor>)
    requires ds != []
    ensures var n := |ds| - 1;
            Acceptable(ds) <==>
            && Acceptable(ds[..n]) && ds[n].key != "" && UnitIsValid(ds[n]) && Acceptable(ds[n].descriptors)
            && FindKey(ds[..n], FinalKey(ds[n])).None?
  {
    hide FindKey, FinalKey, UnitIsValid, Distinct;
    DistinctSplits(ds);
    var n := |ds| - 1;
    assert forall i :: 0 <= i < n ==> ds[..n][i] == ds[i];
  }

  /** A trie node is what its descriptor says. */
  predicate NodeOf(node: Node, d: YamlDescriptor, parentKey: string) {
    && UnitIsValid(d) && node.limit == LimitOf(d, parentKey)
    && LoadDescriptors(d.descriptors, parentKey + FinalKey(d) + ".") == Success(node.descriptors)
  }

  /** Loading succeeds exactly on acceptable lists, and the loaded map has one node for each descriptor
      and nothing else. */
  lemma {:induction false} LoadsExactlyAcceptable(ds: seq<YamlDescriptor>, parentKey: string)
    ensures LoadDescriptors(ds, parentKey).Success? <==> Acceptable(ds)
    ensures Acceptable(ds) ==>
              forall k :: MapAgrees(LoadDescriptors(ds, parentKey).value, ds, parentKey, k)
    decreases ds
  {
    if ds != [] {
      var n := |ds| - 1;
      LoadsExactlyAcceptable(ds[..n], parentKey);
      LoadsExactlyAcceptable(ds[n].descriptors, parentKey + FinalKey(ds[n]) + ".");
      AcceptableSplits(ds);
      if LoadDescriptors(ds[..n], parentKey).Success? {
        assert MapAgrees(LoadDescriptors(ds[..n], parentKey).value, ds[..n], parentKey, FinalKey(ds[n]));
        if LoadDescriptors(ds, parentKey).Success? {
          forall k ensures MapAgrees(LoadDescriptors(ds, parentKey).value, ds, parentKey, k) {
            assert MapAgrees(LoadDescriptors(ds[..n], parentKey).value, ds[..n], parentKey, k);
          }
        }
      }
    }
  }

  predicate MapAgrees(m: map<string, Node>, ds: seq<YamlDescriptor>, parentKey: string, key: string) {
    match FindKey(ds, key)
    case None => key !in m
    case Some(d) => key in m && NodeOf(m[key], d, parentKey)
  }

  /** What is wrong with descriptor `i` of a list whose earlier ones are in order. */
  ghost predicate BadAt(ds: seq<YamlDescriptor>, i: nat, parentKey: string, e: ConfigError)
    requires i < |ds|
  {
    var d := ds[i];
    if d.key == "" then e == EmptyKey
    else if exists j :: 0 <= j < i && FinalKey(ds[j]) == FinalKey(d) then e == DuplicateKey(parentKey + FinalKey(d))
    else if d.rateLimit.Some? && forall u :: !Spells(d.rateLimit.value.unit, u) then
      e == InvalidUnit(d.rateLimit.value.unit)
    else LoadDescriptors(d.descriptors, parentKey + FinalKey(d) + ".") == Failure(e)
  }

  lemma UnitSpelled(s: string)
    ensures ParseUnit(s).None? <==> forall u :: !Spells(s, u)
  {
    forall u ensures ParseUnit(s) == Some(u) <==> Spells(s, u) {
      ParseUnitExactly(s, u);
    }
  }

  /** A list is refused with the error of its first bad descriptor. */
  lemma {:induction false} FirstErrorWins(ds: seq<YamlDescriptor>, parentKey: string, e: ConfigError) returns (i: nat)
    requires LoadDescriptors(ds, parentKey) == Failure(e)
    ensures i < |ds| && Acceptable(ds[..i]) && BadAt(ds, i, parentKey, e)
    decreases |ds|
  {
    hide FindKey, FinalKey, ParseUnit, Spells;
    var n := |ds| - 1;
    if LoadDescriptors(ds[..n], parentKey).Failure? {
      i := FirstErrorWins(ds[..n], parentKey, e);
      assert ds[..n][..i] == ds[..i];
      assert forall j :: 0 <= j <= i ==> ds[..n][j] == ds[j];
    } else {
      i := n;
      LoadsExactlyAcceptable(ds[..n], parentKey);
      var d := ds[n];
      assert MapAgrees(LoadDescriptors(ds[..n], parentKey).value, ds[..n], parentKey, FinalKey(d));
      KeyTaken(ds, n);
      if d.rateLimit.Some? {
        UnitSpelled(d.rateLimit.value.unit);
      }
    }
  }

  lemma KeyTaken(ds: seq<YamlDescriptor>, n: nat)
    requires n < |ds|
    ensures FindKey(ds[..n], FinalKey(ds[n])).Some? <==> exists j :: 0 <= j < n && FinalKey(ds[j]) == FinalKey(ds[n])
  {
    hide FinalKey;
    assert forall j :: 0 <= j < n ==> ds[..n][j] == ds[j] && ds[j] in ds[..n];
    if FindKey(ds[..n], FinalKey(ds[n])).Some? {
      var j :| 0 <= j < n && ds[..n][j] == FindKey(ds[..n], FinalKey(ds[n])).value;
      assert FinalKey(ds[j]) == FinalKey(ds[n]);
    }
  }

  // ---------- lookup ----------

  function CompositeKey(e: DescriptorEntry): string {
    e.key + "_" + e.value
  }

  /** The node for one entry: its composite key, or else its key alone. */
  function Next(m: map<string, Node>, e: DescriptorEntry): Option<Node> {
    if CompositeKey(e) in m then Some(m[CompositeKey(e)])
    else if e.key in m then Some(m[e.key])
    else None
  }

  /** The walk down the trie. A limit counts only at the last entry. */
  function Walk(m: map<string, Node>, entries: seq<DescriptorEntry>): Option<RateLimit>
    decreases |entries|
  {
    if entries == [] then None
    else
      match Next(m, entries[0])
      case None => None
      case Some(node) => if |entries| == 1 then node.limit else Walk(node.descriptors, entries[1..])
  }

  /** The descriptor for one entry in the list as it was written. */
  function Choose(ds: seq<YamlDescriptor>, e: DescriptorEntry): (r: Option<YamlDescriptor>)
    ensures r.Some? ==> r.value in ds
  {
    if FindKey(ds, CompositeKey(e)).Some? then FindKey(ds, CompositeKey(e)) else FindKey(ds, e.key)
  }

  /** The search of the nested list itself: no maps, no loading. */
  function Search(ds: seq<YamlDescriptor>, parentKey: string, entries: seq<DescriptorEntry>): Option<RateLimit>
    requires Acceptable(ds)
  {
    if entries == [] then None
    else
      match Choose(ds, entries[0])
      case None => None
      case Some(d) =>
        if |entries| == 1 then LimitOf(d, parentKey)
        else Search(d.descriptors, parentKey + FinalKey(d) + ".", entries[1..])
  }

  /** For every accepted list the lookup in the loaded trie is the direct search. */
  lemma {:induction false} WalkIsSearch(ds: seq<YamlDescriptor>, parentKey: string, entries: seq<DescriptorEntry>)
    requires Acceptable(ds)
    ensures LoadDescriptors(ds, parentKey).Success?
    ensures Walk(LoadDescriptors(ds, parentKey).value, entries) == Search(ds, parentKey, entries)
    decreases |entries|
  {
    LoadsExactlyAcceptable(ds, parentKey);
    if entries != [] {
      var m := LoadDescriptors(ds, parentKey).value;
      assert MapAgrees(m, ds, parentKey, CompositeKey(entries[0]));
      assert MapAgrees(m, ds, parentKey, entries[0].key);
      match Choose(ds, entries[0])
      case None =>
      case Some(d) => WalkIsSearch(d.descriptors, parentKey + FinalKey(d) + ".", entries[1..]);
    }
  }

  /** In an accepted list the descriptor of a key is the only one, so that the answer of the search does
      not depend on the order in which the list is searched. */
  lemma AnswerIsUnique(ds: seq<YamlDescriptor>, key: string, d: YamlDescriptor)
    requires Acceptable(ds) && d in ds && FinalKey(d) == key
    ensures FindKey(ds, key) == Some(d)
  {
    var i :| 0 <= i < |ds| && ds[i] == d;
    var found := FindKey(ds, key).value;
    var j :| 0 <= j < |ds| && ds[j] == found;
    assert i == j;
  }

  /** The key of a descriptor, spelled out. */
  predicate Names(key: string, d: YamlDescriptor) {
    if d.value == "" then key == d.key else key == d.key + "_" + d.value
  }

  /** What an accepted list loads for each of its descriptors: a node under its key, with a limit exactly if
      the descriptor has one, and then with its requests, its unit and its full name. */
  lemma LoadedLimit(ds: seq<YamlDescriptor>, parentKey: string, d: YamlDescriptor, key: string)
    requires Acceptable(ds) && d in ds && Names(key, d)
    ensures LoadDescriptors(ds, parentKey).Success?
    ensures var m := LoadDescriptors(ds, parentKey).value;
            && key in m
            && (d.rateLimit.None? ==> m[key].limit == None)
            && (d.rateLimit.Some? ==>
                  && m[key].limit.Some?
                  && m[key].limit.value.fullKey == parentKey + key
                  && m[key].limit.value.requestsPerUnit == d.rateLimit.value.requestsPerUnit
                  && Spells(d.rateLimit.value.unit, m[key].limit.value.unit))
  {
    hide LoadDescriptors, ParseUnit, Spells;
    assert FinalKey(d) == key;
    LoadsExactlyAcceptable(ds, parentKey);
    AnswerIsUnique(ds, key, d);
    assert MapAgrees(LoadDescriptors(ds, parentKey).value, ds, parentKey, key);
    if d.rateLimit.Some? {
      ParseUnitExactly(d.rateLimit.value.unit, ParseUnit(d.rateLimit.value.unit).value);
    }
  }

  /** In an accepted list a request's entry is matched by the descriptor with this key and value; without one,
      and if no other descriptor has the composite key, by the descriptor with this key and no value. */
  lemma EntryMatches(ds: seq<YamlDescriptor>, e: DescriptorEntry, d: YamlDescriptor)
    requires Acceptable(ds) && d in ds
    ensures d.key == e.key && d.value == e.value && e.value != "" ==> Choose(ds, e) == Some(d)
    ensures d.key == e.key && d.value == "" && (forall x :: x in ds ==> !Names(e.key + "_" + e.value, x)) ==>
              Choose(ds, e) == Some(d)
  {
    if d.key == e.key && d.value == e.value && e.value != "" {
      AnswerIsUnique(ds, e.key + "_" + e.value, d);
    }
    if d.key == e.key && d.value == "" && forall x :: x in ds ==> !Names(e.key + "_" + e.value, x) {
      AnswerIsUnique(ds, e.key, d);
      assert forall x :: x in ds ==> FinalKey(x) != CompositeKey(e);
    }
  }

  /** An entry that no descriptor matches has no limit. */
  lemma NothingMatches(ds: seq<YamlDescriptor>, e: DescriptorEntry)
    ensures Choose(ds, e) == None <==>
            forall d :: d in ds ==> !Names(e.key + "_" + e.value, d) && !Names(e.key, d)
  {
    assert forall d, k :: Names(k, d) <==> FinalKey(d) == k;
  }

  /** The list in which entry `i` is looked up on the way down. */
  function Level(ds: seq<YamlDescriptor>, path: seq<YamlDescriptor>, i: nat): seq<YamlDescriptor>
    requires i <= |path|
  {
    if i == 0 then ds else path[i - 1].descriptors
  }

  /** A way down the nested list: one descriptor for each entry, each inside the one before. */
  ghost predicate Path(ds: seq<YamlDescriptor>, entries: seq<DescriptorEntry>, path: seq<YamlDescriptor>) {
    |path| == |entries|
    && forall i :: 0 <= i < |path| ==> Choose(Level(ds, path, i), entries[i]) == Some(path[i])
  }

  /** The keys on the way, with dots between them. */
  function Dotted(parentKey: string, path: seq<YamlDescriptor>): string
    requires path != []
    decreases |path|
  {
    if |path| == 1 then parentKey + FinalKey(path[0])
    else Dotted(parentKey + FinalKey(path[0]) + ".", path[1..])
  }

  lemma PathTail(ds: seq<YamlDescriptor>, entries: seq<DescriptorEntry>, path: seq<YamlDescriptor>)
    requires |path| == |entries| > 0
    ensures Path(ds, entries, path)
            <==> Choose(ds, entries[0]) == Some(path[0]) && Path(path[0].descriptors, entries[1..], path[1..])
  {
    hide Choose;
    var rest, others := path[1..], entries[1..];
    assert forall i :: 0 <= i < |rest| ==>
             rest[i] == path[i + 1] && others[i] == entries[i + 1]
             && Level(path[0].descriptors, rest, i) == Level(ds, path, i + 1);
    assert Level(ds, path, 0) == ds;
    if Choose(ds, entries[0]) == Some(path[0]) && Path(path[0].descriptors, others, rest) {
      forall i | 0 <= i < |path| ensures Choose(Level(ds, path, i), entries[i]) == Some(path[i]) {
        if i > 0 {
          assert Choose(Level(path[0].descriptors, rest, i - 1), others[i - 1]) == Some(rest[i - 1]);
        }
      }
    }
  }

  /** The search finds a limit exactly if there is a way down for all entries whose last descriptor has one,
      and this is the limit it finds: none that stands higher up counts. */
  lemma {:induction false} SearchFollowsPath(
    ds: seq<YamlDescriptor>, parentKey: string, entries: seq<DescriptorEntry>, path: seq<YamlDescriptor>)
    requires Acceptable(ds) && Path(ds, entries, path) && path != []
    ensures var last := path[|path| - 1]; var r := Search(ds, parentKey, entries);
            && (last.rateLimit.None? ==> r == None)
            && (last.rateLimit.Some? ==>
                  && r.Some? && r.value.fullKey == Dotted(parentKey, path)
                  && r.value.requestsPerUnit == last.rateLimit.value.requestsPerUnit
                  && Spells(last.rateLimit.value.unit, r.value.unit))
    decreases |path|
  {
    hide Choose, Spells, ParseUnit, FinalKey;
    PathTail(ds, entries, path);
    if |path| == 1 {
      if path[0].rateLimit.Some? {
        ParseUnitExactly(path[0].rateLimit.value.unit, ParseUnit(path[0].rateLimit.value.unit).value);
      }
    } else {
      SearchFollowsPath(path[0].descriptors, parentKey + FinalKey(path[0]) + ".", entries[1..], path[1..]);
    }
  }

  lemma {:induction false} SearchNeedsPath(ds: seq<YamlDescriptor>, parentKey: string, entries: seq<DescriptorEntry>)
    returns (path: seq<YamlDescriptor>)
    requires Acceptable(ds) && Search(ds, parentKey, entries).Some?
    ensures |path| == |entries| > 0 && Path(ds, entries, path) && path[|path| - 1].rateLimit.Some?
    decreases |entries|
  {
    hide Choose, ParseUnit, FinalKey, Path, Level;
    var d := Choose(ds, entries[0]).value;
    var rest := [];
    if |entries| == 1 {
      assert entries[1..] == [];
      NoWayNeeded(d.descriptors);
    } else {
      rest := SearchNeedsPath(d.descriptors, parentKey + FinalKey(d) + ".", entries[1..]);
    }
    path := [d] + rest;
    assert path[1..] == rest;
    PathTail(ds, entries, path);
  }

  lemma NoWayNeeded(ds: seq<YamlDescriptor>)
    ensures Path(ds, [], [])
  {
  }

  // ---------- configurations ----------

  type Domains = map<string, map<string, Node>>

  function LoadFile(domains: Domains, file: File): Result<Domains> {
    match file.root
    case None => Failure(InvalidFile)
    case Some(root) =>
      if root.domain == "" then Failure(EmptyDomain)
      else if root.domain in domains then Failure(DuplicateDomain(root.domain))
      else
        match LoadDescriptors(root.descriptors, root.domain + ".")
        case Failure(e) => Failure(e)
        case Success(m) => Success(domains[root.domain := m])
  }

  function LoadFiles(files: seq<File>): Result<Domains> {
    if files == [] then Success(map[])
    else
      match LoadFiles(files[..|files| - 1])
      case Failure(e) => Failure(e)
      case Success(domains) => LoadFile(domains, files[|files| - 1])
  }

  function GetLimit(domains: Domains, domain: string, entries: seq<DescriptorEntry>): Option<RateLimit> {
    if domain !in domains then None else Walk(domains[domain], entries)
  }

  /** Every file has a root with a domain of its own and an acceptable list. */
  predicate AcceptableFiles(files: seq<File>) {
    && (forall i :: 0 <= i < |files| ==>
          files[i].root.Some? && files[i].root.value.domain != "" && Acceptable(files[i].root.value.descriptors))
    && (forall i, j :: 0 <= i < j < |files| ==> files[i].root.value.domain != files[j].root.value.domain)
  }

  /** The configuration answers each file's domain by a search of the file, and no other domain. */
  predicate Answers(domains: Domains, files: seq<File>, domain: string, entries: seq<DescriptorEntry>)
    requires AcceptableFiles(files)
  {
    && (forall i :: 0 <= i < |files| && files[i].root.value.domain == domain ==>
          GetLimit(domains, domain, entries) == Search(files[i].root.value.descriptors, domain + ".", entries))
    && (domain in domains <==> exists i :: 0 <= i < |files| && files[i].root.value.domain == domain)
  }

  /** For every list of files: it is accepted exactly when it is acceptable, and then every lookup in the
      loaded configuration is the direct search of the file that has the domain. */
  lemma {:induction false} ConfigurationAnswers(files: seq<File>)
    ensures LoadFiles(files).Success? <==> AcceptableFiles(files)
    ensures AcceptableFiles(files) ==>
              forall domain, entries :: Answers(LoadFiles(files).value, files, domain, entries)
  {
    hide LoadDescriptors, Acceptable, GetLimit, Search, Answers;
    if files != [] {
      var n := |files| - 1;
      var init := files[..n];
      ConfigurationAnswers(init);
      LastFileAccepted(files);
      if AcceptableFiles(files) {
        forall domain, entries ensures Answers(LoadFiles(files).value, files, domain, entries) {
          assert Answers(LoadFiles(init).value, init, domain, entries);
          LastFileAnswers(files, domain, entries);
        }
      }
    } else {
      NoFiles();
    }
  }

  lemma NoFiles()
    ensures forall domain, entries :: Answers(map[], [], domain, entries)
  {
  }

  lemma FilesSplit(files: seq<File>)
    requires files != []
    ensures var n := |files| - 1;
            AcceptableFiles(files) <==>
            && AcceptableFiles(files[..n]) && files[n].root.Some? && files[n].root.value.domain != ""
            && Acceptable(files[n].root.value.descriptors)
            && forall i :: 0 <= i < n ==> files[i].root.value.domain != files[n].root.value.domain
  {
    hide Acceptable;
    assert forall i :: 0 <= i < |files| - 1 ==> files[..|files| - 1][i] == files[i];
  }

  /** The last file is accepted after the others exactly if they are acceptable together. */
  lemma LastFileAccepted(files: seq<File>)
    requires files != []
    requires var init := files[..|files| - 1];
             && (LoadFiles(init).Success? <==> AcceptableFiles(init))
             && (AcceptableFiles(init) ==>
                   forall domain, entries :: Answers(LoadFiles(init).value, init, domain, entries))
    ensures LoadFiles(files).Success? <==> AcceptableFiles(files)
    ensures AcceptableFiles(files) ==> AcceptableFiles(files[..|files| - 1])
  {
    hide LoadDescriptors, Acceptable, GetLimit, Search;
    var n := |files| - 1;
    var init := files[..n];
    FilesSplit(files);
    if LoadFiles(init).Success? && files[n].root.Some? {
      var root := files[n].root.value;
      assert Answers(LoadFiles(init).value, init, root.domain, []);
      assert forall i :: 0 <= i < n ==> init[i] == files[i];
      LoadsExactlyAcceptable(root.descriptors, root.domain + ".");
    }
  }

  lemma LastFileAnswers(files: seq<File>, domain: string, entries: seq<DescriptorEntry>)
    requires files != [] && AcceptableFiles(files) && AcceptableFiles(files[..|files| - 1])
    requires LoadFiles(files[..|files| - 1]).Success? && LoadFiles(files).Success?
    requires Answers(LoadFiles(files[..|files| - 1]).value, files[..|files| - 1], domain, entries)
    ensures Answers(LoadFiles(files).value, files, domain, entries)
  {
    var n := |files| - 1;
    var init := files[..n];
    var root := files[n].root.value;
    assert forall i :: 0 <= i < n ==> init[i] == files[i];
    WalkIsSearch(root.descriptors, root.domain + ".", entries);
  }

  // ---------- in place ----------

  /** The recursive loop that fills a level's map. */
  method FillDescriptors(ds: seq<YamlDescriptor>, parentKey: string) returns (r: Result<map<string, Node>>)
    ensures r == LoadDescriptors(ds, parentKey)
    decreases ds
  {
    var m: map<string, Node> := map[];
    var i := 0;
    while i < |ds|
      invariant i <= |ds| && LoadDescriptors(ds[..i], parentKey) == Success(m)
    {
      var d := ds[i];
      assert ds[..i + 1][..i] == ds[..i];
      LoadFailureStays(ds, i + 1, parentKey);
      if d.key == "" {
        return Failure(EmptyKey);
      }
      var finalKey := d.key;
      if d.value != "" {
        finalKey := finalKey + "_" + d.value;
      }
      assert finalKey == FinalKey(d);
      var newParentKey := parentKey + finalKey;
      if finalKey in m {
        return Failure(DuplicateKey(newParentKey));
      }
      var limit := None;
      if d.rateLimit.Some? {
        var unit := ParseUnit(d.rateLimit.value.unit);
        if unit.None? {
          return Failure(InvalidUnit(d.rateLimit.value.unit));
        }
        limit := Some(RateLimit(newParentKey, d.rateLimit.value.requestsPerUnit, unit.value));
      }
      var sub := FillDescriptors(d.descriptors, newParentKey + ".");
      if sub.Failure? {
        return Failure(sub.error);
      }
      m := m[finalKey := Node(sub.value, limit)];
      i := i + 1;
    }
    assert ds[..i] == ds;
    r := Success(m);
  }

  lemma {:induction false} LoadFailureStays(ds: seq<YamlDescriptor>, i: nat, parentKey: string)
    requires i <= |ds|
    ensures var before := LoadDescriptors(ds[..i], parentKey);
            before.Failure? ==> LoadDescriptors(ds, parentKey) == before
    decreases |ds|
  {
    if i < |ds| {
      LoadFailureStays(ds[..|ds| - 1], i, parentKey);
      assert ds[..|ds| - 1][..i] == ds[..i];
    } else {
      assert ds[..i] == ds;
    }
  }

  class RateLimitConfig {
    var domains: Domains

    constructor ()
      ensures domains == map[]
    {
      domains := map[];
    }

    /** A file that is refused leaves the configuration as it was. */
    method LoadConfig(file: File) returns (error: Option<ConfigError>)
      modifies this
      ensures match LoadFile(old(domains), file)
              case Failure(e) => error == Some(e) && domains == old(domains)
              case Success(m) => error == None && domains == m
    {
      if file.root.None? {
        return Some(InvalidFile);
      }
      var root := file.root.value;
      if root.domain == "" {
        return Some(EmptyDomain);
      }
      if root.domain in domains {
        return Some(DuplicateDomain(root.domain));
      }
      var m := FillDescriptors(root.descriptors, root.domain + ".");
      if m.Failure? {
        return Some(m.error);
      }
      domains := domains[root.domain := m.value];
      error := None;
    }

    /** The loop over the request's entries: the map of the level and the limit found so far. */
    method LookUp(domain: string, entries: seq<DescriptorEntry>) returns (limit: Option<RateLimit>)
      ensures limit == GetLimit(domains, domain, entries)
    {
      limit := None;
      if domain !in domains {
        return;
      }
      var m := domains[domain];
      var i := 0;
      while i < |entries|
        invariant i <= |entries| && (i < |entries| ==> limit == None)
        invariant i < |entries| ==> Walk(m, entries[i..]) == Walk(domains[domain], entries)
        invariant i == |entries| ==> limit == Walk(domains[domain], entries)
      {
        assert entries[i..][0] == entries[i] && entries[i..][1..] == entries[i + 1..];
        var finalKey := CompositeKey(entries[i]);
        if finalKey !in m {
          finalKey := entries[i].key;
        }
        if finalKey in m && m[finalKey].limit.Some? && i == |entries| - 1 {
          limit := m[finalKey].limit;
        }
        if finalKey in m && |m[finalKey].descriptors| > 0 {
          m := m[finalKey].descriptors;
        } else {
          if finalKey in m && i < |entries| - 1 {
            assert m[finalKey].descriptors == map[];
          }
          break;
        }
        i := i + 1;
      }
    }
  }
}
