/** The private known_hosts store and the map beside it that binds each host to an instance. */
module KnownHosts {
  import opened Options

  datatype Binding = Binding(host: string, instance: string)

  /** What Python's str.split takes for white space. */
  predicate IsSpace(c: char) {
    || '\t' <= c <= '\r' || '\U{1c}' <= c <= ' ' || c == '\U{85}' || c == '\U{a0}' || c == '\U{1680}'
    || '\U{2000}' <= c <= '\U{200a}' || c == '\U{2028}' || c == '\U{2029}' || c == '\U{202f}' || c == '\U{205f}'
    || c == '\U{3000}'
  }

  predicate IsBreak(c: char) { c == '\n' || c == '\r' }

  predicate Word(s: string) {
    s != "" && forall i :: 0 <= i < |s| ==> !IsSpace(s[i])
  }

  // ---- the file format ----

  /** The longest prefix of `s` without white space. */
  function FirstWord(s: string): (w: string)
    ensures |w| <= |s| && w == s[..|w|]
    ensures forall i :: 0 <= i < |w| ==> !IsSpace(w[i])
  {
    if s == "" || IsSpace(s[0]) then "" else [s[0]] + FirstWord(s[1..])
  }

  function Fields(s: string): (fs: seq<string>)
    ensures forall i :: 0 <= i < |fs| ==> Word(fs[i])
    decreases |s|
  {
    if s == "" then []
    else if IsSpace(s[0]) then Fields(s[1..])
    else
      var w := FirstWord(s);
      [w] + Fields(s[|w|..])
  }

  function FirstLine(s: string): (l: string)
    ensures |l| <= |s| && l == s[..|l|]
  {
    if s == "" || IsBreak(s[0]) then "" else [s[0]] + FirstLine(s[1..])
  }

  function RowOf(line: string): (r: seq<Binding>) {
    var fs := Fields(line);
    if |fs| == 2 then [Binding(fs[0], fs[1])] else []
  }

  /** The rows of a map file; lines that are not two fields are ignored. */
  function ReadRows(s: string): (rows: seq<Binding>)
    decreases |s|
  {
    var l := FirstLine(s);
    if |l| == |s| then RowOf(l) else RowOf(l) + ReadRows(s[|l| + 1..])
  }

  function LineOf(b: Binding): (s: string) { b.host + " " + b.instance + "\n" }

  function WriteRows(rows: seq<Binding>): (s: string) {
    if rows == [] then "" else LineOf(rows[0]) + WriteRows(rows[1..])
  }

  ghost predicate WellFormed(rows: seq<Binding>) {
    forall i :: 0 <= i < |rows| ==> Word(rows[i].host) && Word(rows[i].instance)
  }

  lemma {:induction false} FirstWordIs(w: string, rest: string)
    requires (forall i :: 0 <= i < |w| ==> !IsSpace(w[i])) && (rest == "" || IsSpace(rest[0]))
    ensures FirstWord(w + rest) == w
  {
    hide IsSpace;
    if w == "" {
      assert w + rest == rest;
    } else {
      FirstWordIs(w[1..], rest);
      assert (w + rest)[1..] == w[1..] + rest;
    }
  }

  lemma FieldsOfWord(w: string, rest: string)
    requires Word(w) && (rest == "" || IsSpace(rest[0]))
    ensures Fields(w + rest) == [w] + Fields(rest)
  {
    hide IsSpace;
    FirstWordIs(w, rest);
    assert (w + rest)[0] == w[0] && (w + rest)[|w|..] == rest;
  }

  lemma {:induction false} FirstLineIs(l: string, rest: string)
    requires (forall i :: 0 <= i < |l| ==> !IsBreak(l[i])) && rest != "" && IsBreak(rest[0])
    ensures FirstLine(l + rest) == l
  {
    if l == "" {
      assert l + rest == rest;
    } else {
      FirstLineIs(l[1..], rest);
      assert (l + rest)[1..] == l[1..] + rest;
    }
  }

  lemma LineReadsBack(b: Binding, rest: string)
    requires Word(b.host) && Word(b.instance)
    ensures ReadRows(LineOf(b) + rest) == [b] + ReadRows(rest)
  {
    hide IsSpace;
    var l := b.host + " " + b.instance;
    assert LineOf(b) + rest == l + ("\n" + rest);
    SpacesAre();
    FirstLineIs(l, "\n" + rest);
    assert (l + ("\n" + rest))[|l| + 1..] == rest;
    assert l == b.host + (" " + b.instance);
    FieldsOfWord(b.host, " " + b.instance);
    assert (" " + b.instance)[1..] == b.instance;
    FieldsOfWord(b.instance, "");
    assert b.instance + "" == b.instance;
  }

  lemma SpacesAre()
    ensures IsSpace(' ') && IsSpace('\n') && IsSpace('\r')
  {
  }

  /** Writing rows and reading them again is the identity exactly for non-empty fields without white space. */
  lemma RowsRoundTrip(rows: seq<Binding>)
    ensures ReadRows(WriteRows(rows)) == rows <==> WellFormed(rows)
  {
    ReadIsWellFormed(WriteRows(rows));
    if WellFormed(rows) { WellFormedRoundTrip(rows); }
  }

  lemma {:induction false} WellFormedRoundTrip(rows: seq<Binding>)
    requires WellFormed(rows)
    ensures ReadRows(WriteRows(rows)) == rows
  {
    hide LineOf, Word;
    if rows == [] {
      assert FirstLine("") == "";
    } else {
      LineReadsBack(rows[0], WriteRows(rows[1..]));
      WellFormedRoundTrip(rows[1..]);
    }
  }

  /** Whatever the file holds, the rows read from it are well-formed. */
  lemma {:induction false} ReadIsWellFormed(s: string)
    ensures WellFormed(ReadRows(s))
    decreases |s|
  {
    hide Word;
    var l := FirstLine(s);
    if |l| < |s| { ReadIsWellFormed(s[|l| + 1..]); }
  }

  // ---- what the operations do to the rows ----

  function Bound(rows: seq<Binding>, host: string): (instance: string) {
    if rows == [] then "" else if rows[0].host == host then rows[0].instance else Bound(rows[1..], host)
  }

  function WithoutInstance(rows: seq<Binding>, instance: string): (r: seq<Binding>) {
    if rows == [] then []
    else (if rows[0].instance != instance then [rows[0]] else []) + WithoutInstance(rows[1..], instance)
  }

  function WithoutHost(rows: seq<Binding>, host: string): (r: seq<Binding>) {
    if rows == [] then [] else (if rows[0].host != host then [rows[0]] else []) + WithoutHost(rows[1..], host)
  }

  /** The hosts bound to an instance, in the order of their rows. */
  function HostsOf(rows: seq<Binding>, instance: string): (hs: seq<string>) {
    if rows == [] then []
    else (if rows[0].instance == instance then [rows[0].host] else []) + HostsOf(rows[1..], instance)
  }

  /** The instance a binding replaces, if it does. */
  function Replaced(rows: seq<Binding>, host: string, instance: string): (old_: Option<string>) {
    var recorded := Bound(rows, host);
    if recorded != "" && recorded != instance then Some(recorded) else None
  }

  function AfterBind(rows: seq<Binding>, host: string, instance: string): (r: seq<Binding>) {
    var kept := match Replaced(rows, host, instance)
      case Some(recorded) => WithoutInstance(rows, recorded)
      case None => rows;
    WithoutHost(kept, host) + [Binding(host, instance)]
  }

  function PrunedByBind(rows: seq<Binding>, host: string, instance: string): (hs: seq<string>) {
    match Replaced(rows, host, instance)
    case Some(recorded) => HostsOf(rows, recorded)
    case None => []
  }

  // ---- the calls, as steps of a state ----

  /** The rows of the map, and the host keys, each named by the instance that presented it. */
  datatype State = State(rows: seq<Binding>, known: map<string, string>)

  /** The calls of the scripts, and a connection to whatever instance answers under the host's name. */
  datatype Op = BindOp(host: string, instance: string) | ForgetOp(instance: string) | ForgetHostOp(host: string)
              | Connect(host: string, actual: string)

  function Without(keygen: bool, known: map<string, string>, hosts: set<string>): (r: map<string, string>) {
    if keygen then known - hosts else known
  }

  /** What a call does, with or without ssh-keygen; a connection accepts a new key and never replaces one. */
  function Step(keygen: bool, s: State, op: Op): (t: State) {
    match op
    case BindOp(h, i) =>
      if h == "" || i == "" then s
      else State(AfterBind(s.rows, h, i), Without(keygen, s.known, set p | p in PrunedByBind(s.rows, h, i)))
    case ForgetOp(i) =>
      if i == "" then s
      else State(WithoutInstance(s.rows, i), Without(keygen, s.known, set p | p in HostsOf(s.rows, i)))
    case ForgetHostOp(h) => if h == "" then s else s.(known := Without(keygen, s.known, {h}))
    case Connect(h, actual) => if h in s.known then s else s.(known := s.known[h := actual])
  }

  /**
   * The store: the map file, the host keys in known_hosts, each named by the instance that
   * presented it, and whether ssh-keygen is there to prune them.
   */
  class Store {
    var mapFile: Option<string>
    var known: map<string, string>
    const keygen: bool

    function Rows(): (rows: seq<Binding>)
      reads this
    {
      if mapFile.Some? then ReadRows(mapFile.value) else []
    }

    function Current(): (s: State)
      reads this
    {
      State(Rows(), known)
    }

    method ForgetUnlocked(host: string) returns (ran: bool)
      modifies this`known
      ensures ran == (host != "" && keygen)
      ensures known == if ran then old(known) - {host} else old(known)
    {
      if host == "" { return false; }
      if !keygen { return false; }
      known := known - {host};
      return true;
    }

    method ForgetHost(host: string) returns (ran: bool)
      modifies this`known
      ensures ran == (host != "" && keygen)
      ensures Current() == Step(keygen, old(Current()), ForgetHostOp(host))
    {
      if host == "" { return false; }
      ran := ForgetUnlocked(host);
    }

    method ForgetAll(hosts: seq<string>)
      modifies this`known
      ensures known == if keygen then old(known) - (set h | h in hosts && h != "") else old(known)
    {
      var i := 0;
      while i < |hosts|
        invariant 0 <= i <= |hosts|
        invariant known == if keygen then old(known) - (set h | h in hosts[..i] && h != "") else old(known)
      {
        assert hosts[..i + 1] == hosts[..i] + [hosts[i]];
        var _ := ForgetUnlocked(hosts[i]);
        i := i + 1;
      }
      assert hosts[..i] == hosts;
    }

    /** Binds a host; when it was bound to another instance, all hosts of that instance are forgotten. */
    method Bind(host: string, instance: string)
      modifies this`mapFile, this`known
      ensures host == "" || instance == "" ==> mapFile == old(mapFile) && known == old(known)
      ensures host != "" && instance != "" ==>
        && mapFile == Some(WriteRows(AfterBind(old(Rows()), host, instance)))
        && (Word(host) && Word(instance) ==> Rows() == AfterBind(old(Rows()), host, instance))
        && known == old(known) - (if keygen then set h | h in PrunedByBind(old(Rows()), host, instance) else {})
      ensures (host == "" || Word(host)) && (instance == "" || Word(instance)) ==>
        Current() == Step(keygen, old(Current()), BindOp(host, instance))
    {
      hide ReadRows, Word, WithoutHost, WithoutInstance, HostsOf, Bound;
      if host == "" || instance == "" { return; }
      var rows := Rows();
      RowsAreWellFormed(mapFile);
      ghost var pruned := PrunedByBind(rows, host, instance);
      var recorded := Bound(rows, host);
      var kept := rows;
      if recorded != "" && recorded != instance {
        ForgetAll(HostsOf(rows, recorded));
        HostsAreNamed(rows, recorded);
        kept := WithoutInstance(rows, recorded);
        FilteredIsWellFormed(rows, recorded);
      }
      HostFilteredIsWellFormed(kept, host);
      kept := WithoutHost(kept, host) + [Binding(host, instance)];
      mapFile := Some(WriteRows(kept));
      RowsRoundTrip(kept);
    }

    method ForgetInstance(instance: string)
      modifies this`mapFile, this`known
      ensures instance == "" || old(mapFile).None? ==> mapFile == old(mapFile) && known == old(known)
      ensures instance != "" && old(mapFile).Some? ==>
        && Rows() == WithoutInstance(old(Rows()), instance)
        && known == old(known) - (if keygen then set h | h in HostsOf(old(Rows()), instance) else {})
      ensures Current() == Step(keygen, old(Current()), ForgetOp(instance))
    {
      hide ReadRows, Word, WithoutInstance, HostsOf;
      if instance == "" { return; }
      NoRows(instance);
      if mapFile.None? { return; }
      var rows := Rows();
      RowsAreWellFormed(mapFile);
      ForgetAll(HostsOf(rows, instance));
      HostsAreNamed(rows, instance);
      FilteredIsWellFormed(rows, instance);
      mapFile := Some(WriteRows(WithoutInstance(rows, instance)));
      RowsRoundTrip(WithoutInstance(rows, instance));
    }
  }

  lemma NoRows(instance: string)
    ensures WithoutInstance([], instance) == [] && HostsOf([], instance) == []
  {
  }

  lemma RowsAreWellFormed(file: Option<string>)
    ensures WellFormed(if file.Some? then ReadRows(file.value) else [])
  {
    if file.Some? { ReadIsWellFormed(file.value); }
  }

  lemma {:induction false} FilteredIsWellFormed(rows: seq<Binding>, instance: string)
    requires WellFormed(rows)
    ensures WellFormed(WithoutInstance(rows, instance))
  {
    hide Word;
    if rows != [] { FilteredIsWellFormed(rows[1..], instance); }
  }

  lemma {:induction false} HostFilteredIsWellFormed(rows: seq<Binding>, host: string)
    requires WellFormed(rows)
    ensures WellFormed(WithoutHost(rows, host))
  {
    hide Word;
    if rows != [] { HostFilteredIsWellFormed(rows[1..], host); }
  }

  lemma {:induction false} HostsAreNamed(rows: seq<Binding>, instance: string)
    requires WellFormed(rows)
    ensures "" !in HostsOf(rows, instance)
  {
    if rows != [] { HostsAreNamed(rows[1..], instance); }
  }

  // ---- whole runs ----

  ghost predicate UniqueHosts(rows: seq<Binding>) {
    forall i, j :: 0 <= i < j < |rows| ==> rows[i].host != rows[j].host
  }

  lemma {:induction false} InWithoutInstance(rows: seq<Binding>, instance: string)
    ensures forall b :: b in WithoutInstance(rows, instance) <==> b in rows && b.instance != instance
    ensures UniqueHosts(rows) ==> UniqueHosts(WithoutInstance(rows, instance))
  {
    if rows != [] {
      InWithoutInstance(rows[1..], instance);
      assert forall b :: b in rows <==> b == rows[0] || b in rows[1..];
      var later := WithoutInstance(rows[1..], instance);
      if UniqueHosts(rows) {
        assert forall i :: 0 <= i < |later| ==> later[i] in rows[1..];
        assert forall b :: b in rows[1..] ==> b.host != rows[0].host;
      }
    }
  }

  lemma {:induction false} InWithoutHost(rows: seq<Binding>, host: string)
    ensures forall b :: b in WithoutHost(rows, host) <==> b in rows && b.host != host
    ensures UniqueHosts(rows) ==> UniqueHosts(WithoutHost(rows, host))
  {
    if rows != [] {
      InWithoutHost(rows[1..], host);
      assert forall b :: b in rows <==> b == rows[0] || b in rows[1..];
      var later := WithoutHost(rows[1..], host);
      if UniqueHosts(rows) {
        assert forall i :: 0 <= i < |later| ==> later[i] in rows[1..];
        assert forall b :: b in rows[1..] ==> b.host != rows[0].host;
      }
    }
  }

  lemma {:induction false} InHostsOf(rows: seq<Binding>, instance: string)
    ensures forall h :: h in HostsOf(rows, instance) <==> Binding(h, instance) in rows
  {
    if rows != [] {
      InHostsOf(rows[1..], instance);
      assert forall b :: b in rows <==> b == rows[0] || b in rows[1..];
    }
  }

  lemma {:induction false} BoundIs(rows: seq<Binding>, host: string)
    ensures UniqueHosts(rows) ==> forall b :: b in rows && b.host == host ==> Bound(rows, host) == b.instance
    ensures Bound(rows, host) != "" ==> Binding(host, Bound(rows, host)) in rows
  {
    if rows != [] {
      BoundIs(rows[1..], host);
      assert forall b :: b in rows <==> b == rows[0] || b in rows[1..];
      if UniqueHosts(rows) { assert forall b :: b in rows[1..] ==> b.host != rows[0].host; }
    }
  }

  /** One binding per host stays one binding per host, and the new one is there. */
  lemma BindKeepsUnique(rows: seq<Binding>, host: string, instance: string)
    requires UniqueHosts(rows)
    ensures UniqueHosts(AfterBind(rows, host, instance)) && Binding(host, instance) in AfterBind(rows, host, instance)
  {
    hide WithoutInstance, WithoutHost, Bound;
    var recorded := Bound(rows, host);
    InWithoutInstance(rows, recorded);
    var kept := if Replaced(rows, host, instance).Some? then WithoutInstance(rows, recorded) else rows;
    InWithoutHost(kept, host);
    assert forall i :: 0 <= i < |WithoutHost(kept, host)| ==> WithoutHost(kept, host)[i] in WithoutHost(kept, host);
  }

  /** A binding that is gone afterwards belonged to the replaced instance, and its host's keys are forgotten. */
  lemma DroppedArePruned(rows: seq<Binding>, host: string, instance: string, b: Binding)
    requires UniqueHosts(rows) && WellFormed(rows) && b in rows
    ensures b !in AfterBind(rows, host, instance) <==> Replaced(rows, host, instance) == Some(b.instance)
    ensures b.host in PrunedByBind(rows, host, instance) <==> Replaced(rows, host, instance) == Some(b.instance)
  {
    hide WithoutInstance, WithoutHost, Bound, HostsOf, Word;
    var recorded := Bound(rows, host);
    BoundIs(rows, host);
    InWithoutInstance(rows, recorded);
    InHostsOf(rows, recorded);
    var kept := if Replaced(rows, host, instance).Some? then WithoutInstance(rows, recorded) else rows;
    InWithoutHost(kept, host);
    RowsAreNamed(rows, b);
    BoundIs(rows, b.host);
  }

  lemma RowsAreNamed(rows: seq<Binding>, b: Binding)
    requires WellFormed(rows) && b in rows
    ensures b.host != "" && b.instance != ""
  {
    var i :| 0 <= i < |rows| && rows[i] == b;
    assert Word(rows[i].host) && Word(rows[i].instance);
  }

  predicate Proper(op: Op) { op.BindOp? ==> (op.host == "" || Word(op.host)) && (op.instance == "" || Word(op.instance)) }

  /** Hosts are bound once, and a stored key is always the key of the instance the host is bound to. */
  ghost predicate Healthy(s: State) {
    UniqueHosts(s.rows) && WellFormed(s.rows) && forall h :: h in s.known ==> Binding(h, s.known[h]) in s.rows
  }

  /**
   * What a call must find to leave the store healthy: pruning works or has nothing to prune, and a
   * connection that stores a key is answered by the instance the host is bound to.
   */
  ghost predicate Keeps(keygen: bool, s: State, op: Op) {
    match op
    case BindOp(h, i) => h == "" || i == "" || keygen || forall p :: p in PrunedByBind(s.rows, h, i) ==> p !in s.known
    case ForgetOp(i) => i == "" || keygen || forall p :: p in HostsOf(s.rows, i) ==> p !in s.known
    case ForgetHostOp(h) => true
    case Connect(h, actual) => h in s.known || Binding(h, actual) in s.rows
  }

  lemma BindKeepsHealthyIff(keygen: bool, s: State, h: string, i: string)
    requires Healthy(s) && Word(h) && Word(i)
    ensures Healthy(Step(keygen, s, BindOp(h, i))) <==> Keeps(keygen, s, BindOp(h, i))
  {
    hide AfterBind, PrunedByBind, Word, UniqueHosts, Replaced;
    var t := Step(keygen, s, BindOp(h, i));
    WordsAreNotEmpty(h, i);
    BindKeepsUnique(s.rows, h, i);
    AfterBindIsWellFormed(s.rows, h, i);
    forall x | x in s.known
      ensures Binding(x, s.known[x]) !in AfterBind(s.rows, h, i) <==> x in PrunedByBind(s.rows, h, i)
    {
      DroppedArePruned(s.rows, h, i, Binding(x, s.known[x]));
    }
  }

  lemma WordsAreNotEmpty(h: string, i: string)
    requires Word(h) && Word(i)
    ensures h != "" && i != ""
  {
  }

  lemma AfterBindIsWellFormed(rows: seq<Binding>, host: string, instance: string)
    requires WellFormed(rows) && Word(host) && Word(instance)
    ensures WellFormed(AfterBind(rows, host, instance))
  {
    hide WithoutHost, WithoutInstance, Word, Bound;
    FilteredIsWellFormed(rows, Bound(rows, host));
    HostFilteredIsWellFormed(rows, host);
    HostFilteredIsWellFormed(WithoutInstance(rows, Bound(rows, host)), host);
  }

  lemma ForgetKeepsHealthyIff(keygen: bool, s: State, i: string)
    requires Healthy(s)
    ensures Healthy(Step(keygen, s, ForgetOp(i))) <==> Keeps(keygen, s, ForgetOp(i))
  {
    hide Word, UniqueHosts, WithoutInstance, HostsOf, WellFormed;
    InWithoutInstance(s.rows, i);
    InHostsOf(s.rows, i);
    FilteredIsWellFormed(s.rows, i);
    UniqueKeys(s, i);
  }

  /** A host with a key is among an instance's hosts exactly when the key is that instance's. */
  lemma UniqueKeys(s: State, i: string)
    requires Healthy(s)
    ensures forall x :: x in s.known ==> (Binding(x, i) in s.rows <==> s.known[x] == i)
  {
    forall x | x in s.known && Binding(x, i) in s.rows ensures s.known[x] == i {
      BoundIs(s.rows, x);
    }
  }

  /** A call leaves a healthy store healthy exactly when it finds what it needs. */
  lemma StepKeepsHealthyIff(keygen: bool, s: State, op: Op)
    requires Healthy(s) && Proper(op)
    ensures Healthy(Step(keygen, s, op)) <==> Keeps(keygen, s, op)
  {
    hide AfterBind, PrunedByBind, Word, UniqueHosts, WithoutInstance, HostsOf, Bound, WellFormed;
    match op
    case BindOp(h, i) => if h != "" && i != "" { BindKeepsHealthyIff(keygen, s, h, i); }
    case ForgetOp(i) => ForgetKeepsHealthyIff(keygen, s, i);
    case ForgetHostOp(h) =>
    case Connect(h, actual) =>
      if h !in s.known {
        var t := Step(keygen, s, op);
        assert h in t.known && t.known[h] == actual;
        assert forall x :: x in s.known ==> x in t.known && t.known[x] == s.known[x];
      }
  }

  function RunOf(keygen: bool, s: State, ops: seq<Op>): (t: State) {
    if ops == [] then s else Step(keygen, RunOf(keygen, s, ops[..|ops| - 1]), ops[|ops| - 1])
  }

  /**
   * Over every run from a healthy store: the store is healthy throughout exactly when every call
   * finds what it needs, that is, no host ever keeps the key of an instance it is not bound to
   * unless ssh-keygen is missing when keys must go or something else answers a first connection.
   */
  lemma {:induction false} RunsStayHealthyIff(keygen: bool, s: State, ops: seq<Op>)
    requires Healthy(s) && forall i :: 0 <= i < |ops| ==> Proper(ops[i])
    ensures (forall k :: 0 <= k <= |ops| ==> Healthy(RunOf(keygen, s, ops[..k]))) <==>
            (forall k :: 0 <= k < |ops| ==> Keeps(keygen, RunOf(keygen, s, ops[..k]), ops[k]))
  {
    hide Healthy, Step, Proper, Keeps, RunOf;
    if ops == [] {
      assert ops[..0] == [];
      RunNothing(keygen, s);
    } else {
      var n := |ops| - 1;
      var init := ops[..n];
      RunsStayHealthyIff(keygen, s, init);
      assert forall k :: 0 <= k <= n ==> init[..k] == ops[..k];
      RunStep(keygen, s, ops);
      assert ops[..|ops|] == ops && ops[..n] == init;
      if Healthy(RunOf(keygen, s, init)) {
        StepKeepsHealthyIff(keygen, RunOf(keygen, s, init), ops[n]);
      }
      assert forall k :: 0 <= k < n ==> init[k] == ops[k];
    }
  }

  lemma RunNothing(keygen: bool, s: State)
    ensures RunOf(keygen, s, []) == s
  {
  }

  lemma RunStep(keygen: bool, s: State, ops: seq<Op>)
    requires ops != []
    ensures RunOf(keygen, s, ops) == Step(keygen, RunOf(keygen, s, ops[..|ops| - 1]), ops[|ops| - 1])
  {
  }

  /** Connecting without a binding, or while the host is still bound to an earlier instance, stores a foreign key. */
  lemma UnboundConnectPoisons(h: string, old_: string, new_: string)
    requires Word(h) && Word(old_) && Word(new_) && old_ != new_
    ensures var s := State([Binding(h, old_)], map[]);
      Healthy(s) && !Healthy(Step(true, s, Connect(h, new_))) && !Healthy(Step(true, State([], map[]), Connect(h, new_)))
  {
    var s := State([Binding(h, old_)], map[]);
    assert Healthy(s);
    StepKeepsHealthyIff(true, s, Connect(h, new_));
    var e := State([], map[]);
    assert Healthy(e);
    StepKeepsHealthyIff(true, e, Connect(h, new_));
  }

  /**
   * What the scripts rely on: from any store whatever, forgetting a host, binding it and connecting
   * to its instance ends with that instance's key, exactly if ssh-keygen is there or no other key was.
   */
  lemma ForgetBindConnectHeals(keygen: bool, s: State, h: string, i: string)
    requires Word(h) && Word(i)
    ensures var t := RunOf(keygen, s, [ForgetHostOp(h), BindOp(h, i), Connect(h, i)]);
      && Binding(h, i) in t.rows && h in t.known
      && (t.known[h] == i <==> keygen || h !in s.known || s.known[h] == i)
  {
    hide AfterBind, PrunedByBind, Word;
    WordsAreNotEmpty(h, i);
    var a := Step(keygen, s, ForgetHostOp(h));
    var b := Step(keygen, a, BindOp(h, i));
    var c := Step(keygen, b, Connect(h, i));
    ThreeSteps(keygen, s, ForgetHostOp(h), BindOp(h, i), Connect(h, i));
    NewBindingIsThere(a.rows, h, i);
  }

  lemma ThreeSteps(keygen: bool, s: State, x: Op, y: Op, z: Op)
    ensures RunOf(keygen, s, [x, y, z]) == Step(keygen, Step(keygen, Step(keygen, s, x), y), z)
  {
    hide Step, RunOf;
    assert [x, y, z][..2] == [x, y] && [x, y][..1] == [x] && [x][..0] == [];
    RunStep(keygen, s, [x, y, z]);
    RunStep(keygen, s, [x, y]);
    RunStep(keygen, s, [x]);
    RunNothing(keygen, s);
  }

  lemma NewBindingIsThere(rows: seq<Binding>, host: string, instance: string)
    ensures Binding(host, instance) in AfterBind(rows, host, instance)
  {
    hide WithoutHost, WithoutInstance, Bound;
  }
}
