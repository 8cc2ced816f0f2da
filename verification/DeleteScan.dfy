/**
The scan for physical deletes (`app/core/cross_cutting.py`): a worklist walk over the syntax tree of each file, the
classification of the calls it meets, and the findings, sorted by location.
*/
module DeleteScan {
  import opened Common
  import opened Ordering

  // The nodes that the rules look at. `Other` is any other node. `display` is what `str()` gives for a literal.
  datatype Node =
    | Call(func: Node, args: seq<Node>, keywords: seq<Node>, line: nat)
    | Name(id: string)
    | Attribute(value: Node, attr: string)
    | Assign(targets: seq<Node>, value: Node)
    | Constant(kind: ConstantKind, display: string)
    | Collection(form: Form, items: seq<Node>, display: string)
    | Mapping(entries: seq<Node>, unpacks: bool, display: string)    // key, value, key, value; unpacks: `**` is used
    | Unary(signed: bool, operand: Node, display: string)            // signed: a plus or a minus
    | Binary(added: bool, left: Node, right: Node, display: string)  // added: a sum or a difference
    | Other(children: seq<Node>)

  datatype ConstantKind = Text | Real | Imaginary | OtherConstant

  datatype Form = ListForm | TupleForm | SetForm

  datatype File = File(path: string, tree: Node)

  datatype Finding = Finding(location: string, table: string)

  const UNKNOWN := "<desconocida>"

  const SAFE_RECEIVERS: set<string> := {"router", "app", "client", "storage", "bucket", "cache"}

  function Children(n: Node): seq<Node> {
    match n
    case Call(func, args, keywords, _) => [func] + args + keywords
    case Name(_) => []
    case Attribute(value, _) => [value]
    case Assign(targets, value) => targets + [value]
    case Constant(_, _) => []
    case Collection(_, items, _) => items
    case Mapping(entries, _, _) => entries
    case Unary(_, operand, _) => [operand]
    case Binary(_, left, right, _) => [left, right]
    case Other(children) => children
  }

  // Every node of a tree, one entry per position.
  function Subtree(n: Node): seq<Node>
    decreases n
  {
    [n] + match n
          case Call(func, args, keywords, _) => Subtree(func) + Forest(args) + Forest(keywords)
          case Name(_) => []
          case Attribute(value, _) => Subtree(value)
          case Assign(targets, value) => Forest(targets) + Subtree(value)
          case Constant(_, _) => []
          case Collection(_, items, _) => Forest(items)
          case Mapping(entries, _, _) => Forest(entries)
          case Unary(_, operand, _) => Subtree(operand)
          case Binary(_, left, right, _) => Subtree(left) + Subtree(right)
          case Other(children) => Forest(children)
  }

  function Forest(ns: seq<Node>): seq<Node>
    decreases ns
  {
    if ns == [] then [] else Subtree(ns[0]) + Forest(ns[1..])
  }

  lemma {:induction false} ForestConcat(a: seq<Node>, b: seq<Node>)
    ensures Forest(a + b) == Forest(a) + Forest(b)
  {
    if a == [] {
      assert a + b == b;
    } else {
      assert (a + b)[1..] == a[1..] + b;
      ForestConcat(a[1..], b);
    }
  }

  lemma ForestOfOne(n: Node)
    ensures Forest([n]) == Subtree(n)
  {
    assert [n][1..] == [];
  }

  lemma SubtreeIsChildren(n: Node)
    ensures Subtree(n) == [n] + Forest(Children(n))
  {
    match n
    case Call(func, args, keywords, _) =>
      ForestConcat([func] + args, keywords);
      ForestConcat([func], args);
      ForestOfOne(func);
    case Attribute(value, _) => ForestOfOne(value);
    case Unary(_, operand, _) => ForestOfOne(operand);
    case Binary(_, left, right, _) =>
      ForestConcat([left], [right]);
      ForestOfOne(left);
      ForestOfOne(right);
    case Assign(targets, value) =>
      ForestConcat(targets, [value]);
      ForestOfOne(value);
    case _ =>
  }

  // ---------------------------------------------------------------------- classification

  // The table of the argument of a delete: `Piece`, `models.Piece` or `Piece()`.
  function ArgumentTable(n: Node, tables: map<string, string>): string {
    match n
    case Call(func, _, _, _) => ArgumentTable(func, tables)
    case Name(id) => if id in tables then tables[id] else "<" + id + ">"
    case Attribute(_, attr) => if attr in tables then tables[attr] else "<" + attr + ">"
    case _ => UNKNOWN
  }

  function DeletedTable(n: Node, tables: map<string, string>): Option<string>
    requires n.Call?
  {
    if (n.func.Name? && n.func.id == "delete") || (n.func.Attribute? && n.func.attr == "delete" && n.args != []) then
      if n.func.Attribute? && n.func.value.Name? && n.func.value.id in SAFE_RECEIVERS then None
      else if n.args != [] then Some(ArgumentTable(n.args[0], tables))
      else NoArguments(n)
    else NoArguments(n)
  }

  function NoArguments(n: Node): Option<string>
    requires n.Call?
  {
    if n.func.Attribute? && n.func.attr == "delete" && n.args == [] then
      if n.func.value.Name? && n.func.value.id in SAFE_RECEIVERS then None else Some(UNKNOWN)
    else None
  }

  // What is left of an argument when its calls are taken away.
  function Callee(n: Node): (r: Node)
    ensures !r.Call?
  {
    if n.Call? then Callee(n.func) else n
  }

  // `n` called any number of times, with any arguments.
  function Called(n: Node, calls: seq<(seq<Node>, seq<Node>, nat)>): Node {
    if calls == [] then n
    else var c := calls[|calls| - 1]; Call(Called(n, calls[..|calls| - 1]), c.0, c.1, c.2)
  }

  lemma {:induction false} ArgumentTableOfCallee(n: Node, calls: seq<(seq<Node>, seq<Node>, nat)>, tables: map<string, string>)
    ensures ArgumentTable(Called(n, calls), tables) == ArgumentTable(Callee(n), tables)
    ensures Callee(Called(n, calls)) == Callee(n)
  {
    if calls != [] {
      ArgumentTableOfCallee(n, calls[..|calls| - 1], tables);
    } else if n.Call? {
      ArgumentTableOfCallee(n.func, [], tables);
      assert Called(n.func, []) == n.func;
    }
  }

  // A call that deletes rows: `delete(x)`, or a method `delete` of anything but a receiver known to be safe.
  predicate PhysicalDelete(n: Node) {
    && n.Call?
    && ((n.func.Name? && n.func.id == "delete" && n.args != [])
        || (n.func.Attribute? && n.func.attr == "delete" && !(n.func.value.Name? && n.func.value.id in SAFE_RECEIVERS)))
  }

  // The table it names: the name its first argument ends in once its calls are taken away.
  function NamedTable(n: Node, tables: map<string, string>): string
    requires PhysicalDelete(n)
  {
    if n.args == [] then UNKNOWN
    else match Callee(n.args[0])
      case Name(id) => if id in tables then tables[id] else "<" + id + ">"
      case Attribute(_, attr) => if attr in tables then tables[attr] else "<" + attr + ">"
      case _ => UNKNOWN
  }

  lemma DeletedTableMeans(n: Node, tables: map<string, string>)
    requires n.Call?
    ensures DeletedTable(n, tables) == if PhysicalDelete(n) then Some(NamedTable(n, tables)) else None
  {
    if n.args != [] {
      ArgumentTableOfCallee(n.args[0], [], tables);
      assert Called(n.args[0], []) == n.args[0];
    }
  }

  // ---------------------------------------------------------------------- the scan

  function Digit(d: nat): char
    requires d < 10
  {
    ['0', '1', '2', '3', '4', '5', '6', '7', '8', '9'][d]
  }

  function Decimal(n: nat): string {
    (if n < 10 then "" else Decimal(n / 10)) + [Digit(n % 10)]
  }

  function LocationOf(path: string, line: nat): string {
    path + ":" + Decimal(line)
  }

  // The number that digits stand for.
  function ValueOf(digits: string): int {
    if digits == "" then 0 else 10 * ValueOf(digits[..|digits| - 1]) + (digits[|digits| - 1] as int - '0' as int)
  }

  lemma DigitMeans(d: nat)
    requires d < 10
    ensures '0' <= Digit(d) <= '9' && Digit(d) as int - '0' as int == d
  {
  }

  lemma OneMoreDigit(front: string, d: nat)
    requires d < 10 && forall i :: 0 <= i < |front| ==> '0' <= front[i] <= '9'
    ensures ValueOf(front + [Digit(d)]) == 10 * ValueOf(front) + d
    ensures forall i :: 0 <= i <= |front| ==> '0' <= (front + [Digit(d)])[i] <= '9'
  {
    DigitMeans(d);
    assert (front + [Digit(d)])[..|front|] == front;
  }

  // The decimal digits of a number and nothing else.
  lemma {:induction false} DecimalMeans(n: nat)
    ensures Decimal(n) != "" && ValueOf(Decimal(n)) == n && forall i :: 0 <= i < |Decimal(n)| ==> '0' <= Decimal(n)[i] <= '9'
  {
    if n < 10 {
      OneMoreDigit("", n);
      assert n % 10 == n;
    } else {
      DecimalMeans(n / 10);
      OneMoreDigit(Decimal(n / 10), n % 10);
    }
  }

  // The last colon of a location is before the digits.
  lemma LastColon(path: string, line: nat)
    ensures var l := LocationOf(path, line);
            && |l| > |path| && l[..|path|] == path && l[|path|] == ':' && l[|path| + 1..] == Decimal(line)
            && forall j :: |path| < j < |l| ==> l[j] != ':'
  {
    DecimalMeans(line);
    var l := LocationOf(path, line);
    forall j | |path| < j < |l| ensures l[j] != ':' { assert l[j] == Decimal(line)[j - |path| - 1]; }
  }

  /** A location names one line of one file, even where the path has colons. */
  lemma LocationsAreDistinct(path: string, line: nat, path': string, line': nat)
    requires LocationOf(path, line) == LocationOf(path', line')
    ensures path == path' && line == line'
  {
    LastColon(path, line);
    LastColon(path', line');
    DecimalMeans(line);
    DecimalMeans(line');
  }

  function NodeFindings(path: string, allowed: set<string>, tables: map<string, string>, n: Node): seq<Finding> {
    if !n.Call? then []
    else
      var table := DeletedTable(n, tables);
      if table.None? || table.value in allowed then [] else [Finding(LocationOf(path, n.line), table.value)]
  }

  function NodesFindings(path: string, allowed: set<string>, tables: map<string, string>, ns: seq<Node>): seq<Finding> {
    if ns == [] then []
    else NodeFindings(path, allowed, tables, ns[0]) + NodesFindings(path, allowed, tables, ns[1..])
  }

  lemma {:induction false} FindingsConcat(
      path: string, allowed: set<string>, tables: map<string, string>, a: seq<Node>, b: seq<Node>)
    ensures NodesFindings(path, allowed, tables, a + b)
            == NodesFindings(path, allowed, tables, a) + NodesFindings(path, allowed, tables, b)
  {
    if a == [] {
      assert a + b == b;
    } else {
      FindingsConcat(path, allowed, tables, a[1..], b);
      assert (a + b)[1..] == a[1..] + b && (a + b)[0] == a[0];
      Assoc(NodeFindings(path, allowed, tables, a[0]), NodesFindings(path, allowed, tables, a[1..]),
            NodesFindings(path, allowed, tables, b));
    }
  }

  function Allowed(exceptions: map<string, set<string>>, path: string): set<string> {
    if path in exceptions then exceptions[path] else {}
  }

  function FilesFindings(files: seq<File>, exceptions: map<string, set<string>>, tables: map<string, string>): seq<Finding> {
    Flat(seq(|files|, i requires 0 <= i < |files| => FileFindings(files[i], exceptions, tables)))
  }

  function FileFindings(file: File, exceptions: map<string, set<string>>, tables: map<string, string>): seq<Finding> {
    NodesFindings(file.path, Allowed(exceptions, file.path), tables, Subtree(file.tree))
  }

  /** `ast.walk` with the body of the scan: a queue that starts with the tree; each node taken from its front
      leaves its children at its end. It meets every node once. */
  method ScanFile(file: File, allowed: set<string>, tables: map<string, string>)
    returns (findings: seq<Finding>, ghost visited: seq<Node>)
    ensures multiset(visited) == multiset(Subtree(file.tree))
    ensures multiset(findings) == multiset(NodesFindings(file.path, allowed, tables, Subtree(file.tree)))
  {
    findings, visited := [], [];
    var todo := [file.tree];
    assert Forest(todo) == Subtree(file.tree);
    ghost var nodesLeft, findingsLeft := multiset(Forest(todo)), FindingsLeft(file.path, allowed, tables, todo);
    ghost var allNodes, allFindings := nodesLeft, findingsLeft;
    while todo != []
      invariant nodesLeft == multiset(Forest(todo)) && findingsLeft == FindingsLeft(file.path, allowed, tables, todo)
      invariant multiset(visited) + nodesLeft == allNodes
      invariant multiset(findings) + findingsLeft == allFindings
      decreases |Forest(todo)|
    {
      WalkStep(file.path, allowed, tables, todo);
      var node := todo[0];
      todo := todo[1..] + Children(node);
      var more := Classify(file.path, allowed, tables, node);
      Carry(visited, [node], nodesLeft, multiset(Forest(todo)));
      Carry(findings, more, findingsLeft, FindingsLeft(file.path, allowed, tables, todo));
      visited, nodesLeft := visited + [node], multiset(Forest(todo));
      findings, findingsLeft := findings + more, FindingsLeft(file.path, allowed, tables, todo);
    }
  }

  // The body of the scan for one node.
  method Classify(path: string, allowed: set<string>, tables: map<string, string>, node: Node) returns (found: seq<Finding>)
    ensures found == NodeFindings(path, allowed, tables, node)
  {
    found := [];
    if node.Call? {
      var table := DeletedTable(node, tables);
      if table.Some? && table.value !in allowed {
        found := [Finding(LocationOf(path, node.line), table.value)];
      }
    }
  }

  function FindingsLeft(path: string, allowed: set<string>, tables: map<string, string>, todo: seq<Node>): multiset<Finding> {
    multiset(NodesFindings(path, allowed, tables, Forest(todo)))
  }

  lemma ForestStep(todo: seq<Node>) returns (rest: seq<Node>, below: seq<Node>)
    requires todo != []
    ensures Forest(todo) == [todo[0]] + (below + rest)
    ensures Forest(todo[1..] + Children(todo[0])) == rest + below
  {
    rest, below := Forest(todo[1..]), Forest(Children(todo[0]));
    SubtreeIsChildren(todo[0]);
    ForestConcat(todo[1..], Children(todo[0]));
    assert ([todo[0]] + below) + rest == [todo[0]] + (below + rest);
  }

  // What is left gives `more` to what is done.
  lemma Carry<T>(done: seq<T>, more: seq<T>, left: multiset<T>, next: multiset<T>)
    requires left == multiset(more) + next
    ensures multiset(done + more) + next == multiset(done) + left
  {
  }

  lemma Rotate<T>(a: seq<T>, b: seq<T>, c: seq<T>)
    ensures multiset(a + (b + c)) == multiset(a) + multiset(c + b)
  {
  }

  lemma WalkStep(path: string, allowed: set<string>, tables: map<string, string>, todo: seq<Node>)
    requires todo != []
    ensures var next := todo[1..] + Children(todo[0]);
            && multiset(Forest(todo)) == multiset([todo[0]]) + multiset(Forest(next))
            && |Forest(next)| < |Forest(todo)|
            && FindingsLeft(path, allowed, tables, todo)
               == multiset(NodeFindings(path, allowed, tables, todo[0])) + FindingsLeft(path, allowed, tables, next)
  {
    var rest, below := ForestStep(todo);
    Rotate([todo[0]], below, rest);
    FindingsStep(path, allowed, tables, todo[0], rest, below);
  }

  lemma FindingsStep(
      path: string, allowed: set<string>, tables: map<string, string>, n: Node, rest: seq<Node>, below: seq<Node>)
    ensures multiset(NodesFindings(path, allowed, tables, [n] + (below + rest)))
            == multiset(NodeFindings(path, allowed, tables, n)) + multiset(NodesFindings(path, allowed, tables, rest + below))
  {
    FindingsConcat(path, allowed, tables, below, rest);
    FindingsConcat(path, allowed, tables, rest, below);
    var found := NodeFindings(path, allowed, tables, n);
    Rotate(found, NodesFindings(path, allowed, tables, below), NodesFindings(path, allowed, tables, rest));
    assert ([n] + (below + rest))[1..] == below + rest;
  }

  function ByLocation(): Order<Finding> { ByKey((f: Finding) => f.location) }

  lemma FilesFindingsNext(files: seq<File>, exceptions: map<string, set<string>>, tables: map<string, string>, n: nat)
    requires n < |files|
    ensures FilesFindings(files[..n + 1], exceptions, tables)
            == FilesFindings(files[..n], exceptions, tables) + FileFindings(files[n], exceptions, tables)
  {
    var parts := seq(|files|, i requires 0 <= i < |files| => FileFindings(files[i], exceptions, tables));
    assert seq(n, i requires 0 <= i < n => FileFindings(files[..n][i], exceptions, tables)) == parts[..n];
    assert seq(n + 1, i requires 0 <= i < n + 1 => FileFindings(files[..n + 1][i], exceptions, tables)) == parts[..n + 1];
    assert parts[..n + 1][..n] == parts[..n];
  }

  /** Every delete call of every file is reported once, unless its file may delete its table; the findings are
      in order of location. */
  method UnjustifiedPhysicalDeletes(files: seq<File>, exceptions: map<string, set<string>>, tables: map<string, string>)
    returns (findings: seq<Finding>)
    ensures multiset(findings) == multiset(FilesFindings(files, exceptions, tables))
    ensures SortedBy(findings, ByLocation())
  {
    findings := [];
    var n := 0;
    while n < |files|
      invariant 0 <= n <= |files|
      invariant multiset(findings) == multiset(FilesFindings(files[..n], exceptions, tables))
    {
      FilesFindingsNext(files, exceptions, tables, n);
      var more, _ := ScanFile(files[n], Allowed(exceptions, files[n].path), tables);
      findings := findings + more;
      n := n + 1;
    }
    assert files[..n] == files;
    ByKeyIsTotal((f: Finding) => f.location);
    SortedSorts(findings, ByLocation());
    findings := Sorted(findings, ByLocation());
  }

  // ---------------------------------------------------------------------- soundness and completeness

  // The node at a position: the path of child indices from the top.
  function At(n: Node, path: seq<int>): Option<Node>
    decreases |path|
  {
    if path == [] then Some(n)
    else
      var children := Children(n);
      if 0 <= path[0] < |children| then At(children[path[0]], path[1..]) else None
  }

  lemma {:induction false} InForest(ns: seq<Node>, n: Node)
    ensures n in Forest(ns) <==> exists i :: 0 <= i < |ns| && n in Subtree(ns[i])
  {
    if ns != [] {
      InForest(ns[1..], n);
      forall i | 0 <= i < |ns| && n in Subtree(ns[i]) ensures n in Forest(ns) {
        if i > 0 { assert ns[i] == ns[1..][i - 1]; }
      }
      if n in Forest(ns[1..]) {
        var i :| 0 <= i < |ns[1..]| && n in Subtree(ns[1..][i]);
        assert ns[1..][i] == ns[i + 1];
      }
    }
  }

  lemma {:induction false} SubtreeShorter(n: Node, i: nat)
    requires i < |Children(n)|
    ensures |Subtree(Children(n)[i])| < |Subtree(n)|
  {
    SubtreeIsChildren(n);
    ForestLength(Children(n), i);
  }

  lemma {:induction false} ForestLength(ns: seq<Node>, i: nat)
    requires i < |ns|
    ensures |Subtree(ns[i])| <= |Forest(ns)|
  {
    if i > 0 {
      assert ns[1..][i - 1] == ns[i];
      ForestLength(ns[1..], i - 1);
    }
  }

  // The walked nodes are the nodes that have a position.
  lemma {:induction false} WalkedHasPosition(t: Node, n: Node) returns (path: seq<int>)
    requires n in Subtree(t)
    ensures At(t, path) == Some(n)
    decreases |Subtree(t)|
  {
    SubtreeIsChildren(t);
    InForest(Children(t), n);
    if n == t {
      path := [];
    } else {
      var i :| 0 <= i < |Children(t)| && n in Subtree(Children(t)[i]);
      SubtreeShorter(t, i);
      var below := WalkedHasPosition(Children(t)[i], n);
      path := [i] + below;
      assert path[1..] == below;
    }
  }

  lemma {:induction false} PositionIsWalked(t: Node, path: seq<int>)
    requires At(t, path).Some?
    ensures At(t, path).value in Subtree(t)
    decreases |path|
  {
    SubtreeIsChildren(t);
    if path != [] {
      PositionIsWalked(Children(t)[path[0]], path[1..]);
      InForest(Children(t), At(t, path).value);
    }
  }

  lemma {:induction false} InNodesFindings(
      path: string, allowed: set<string>, tables: map<string, string>, ns: seq<Node>, f: Finding)
    ensures f in NodesFindings(path, allowed, tables, ns) <==> exists n :: n in ns && Reported(path, allowed, tables, n, f)
  {
    if ns != [] {
      InNodesFindings(path, allowed, tables, ns[1..], f);
      if ns[0].Call? { DeletedTableMeans(ns[0], tables); }
      assert ns == [ns[0]] + ns[1..];
      assert f in NodeFindings(path, allowed, tables, ns[0]) <==> Reported(path, allowed, tables, ns[0], f);
      if f in NodesFindings(path, allowed, tables, ns) && !Reported(path, allowed, tables, ns[0], f) {
        var n :| n in ns[1..] && Reported(path, allowed, tables, n, f);
        assert n in ns;
      }
    }
  }

  // ---------------------------------------------------------------------- one finding per position

  // The positions of a tree, in the order of its nodes.
  function Positions(n: Node): seq<seq<int>>
    decreases |Subtree(n)|, 0
  {
    SubtreeIsChildren(n);
    [[]] + PositionsIn(Children(n), 0)
  }

  // Those of a list of children, of which the first is the k-th.
  function PositionsIn(ns: seq<Node>, k: nat): seq<seq<int>>
    decreases |Forest(ns)|, 1, |ns|
  {
    if ns == [] then [] else Under(k, Positions(ns[0])) + PositionsIn(ns[1..], k + 1)
  }

  function Under(k: nat, paths: seq<seq<int>>): (r: seq<seq<int>>)
    ensures |r| == |paths|
  {
    seq(|paths|, i requires 0 <= i < |paths| => [k] + paths[i])
  }

  lemma {:induction false} PositionsMatch(n: Node)
    ensures |Positions(n)| == |Subtree(n)|
    ensures forall i :: 0 <= i < |Positions(n)| ==> At(n, Positions(n)[i]) == Some(Subtree(n)[i])
    decreases |Subtree(n)|, 0
  {
    SubtreeIsChildren(n);
    var ns := Children(n);
    PositionsInMatch(n, 0);
    forall i | 0 <= i < |Positions(n)| ensures At(n, Positions(n)[i]) == Some(Subtree(n)[i]) {
      if i > 0 {
        assert Positions(n)[i] == PositionsIn(ns, 0)[i - 1];
        assert Subtree(n)[i] == Forest(ns)[i - 1];
      }
    }
  }

  lemma {:induction false} PositionsInMatch(n: Node, k: nat)
    requires k <= |Children(n)|
    ensures var ps, nodes := PositionsIn(Children(n)[k..], k), Forest(Children(n)[k..]);
            && |ps| == |nodes|
            && forall i :: 0 <= i < |ps| ==> ps[i] != [] && ps[i][0] >= k && At(n, ps[i]) == Some(nodes[i])
    decreases |Subtree(n)|, 0, |Children(n)| - k
  {
    var ns := Children(n);
    if k < |ns| {
      SubtreeShorter(n, k);
      PositionsMatch(ns[k]);
      PositionsInMatch(n, k + 1);
      assert ns[k..][1..] == ns[k + 1..];
      var first, rest := Under(k, Positions(ns[k])), PositionsIn(ns[k + 1..], k + 1);
      assert PositionsIn(ns[k..], k) == first + rest;
      assert Forest(ns[k..]) == Subtree(ns[k]) + Forest(ns[k + 1..]);
      forall i | 0 <= i < |first| ensures At(n, first[i]) == Some(Subtree(ns[k])[i]) {
        assert first[i][1..] == Positions(ns[k])[i];
      }
    }
  }

  lemma {:induction false} PositionsAreDistinct(n: Node)
    ensures NoDup(Positions(n))
    decreases |Subtree(n)|, 0
  {
    PositionsInAreDistinct(n, 0);
    PositionsInMatch(n, 0);
    assert Children(n)[0..] == Children(n);
  }

  lemma {:induction false} PositionsInAreDistinct(n: Node, k: nat)
    requires k <= |Children(n)|
    ensures NoDup(PositionsIn(Children(n)[k..], k))
    decreases |Subtree(n)|, 0, |Children(n)| - k
  {
    var ns := Children(n);
    if k < |ns| {
      SubtreeShorter(n, k);
      PositionsAreDistinct(ns[k]);
      PositionsInAreDistinct(n, k + 1);
      PositionsInMatch(n, k + 1);
      assert ns[k..][1..] == ns[k + 1..];
      DistinctUnder(k, Positions(ns[k]), PositionsIn(ns[k + 1..], k + 1));
    }
  }

  lemma DistinctUnder(k: nat, paths: seq<seq<int>>, rest: seq<seq<int>>)
    requires NoDup(paths) && NoDup(rest) && forall i :: 0 <= i < |rest| ==> rest[i] != [] && rest[i][0] > k
    ensures NoDup(Under(k, paths) + rest)
  {
    var all := Under(k, paths) + rest;
    forall i, j | 0 <= i < j < |all| ensures all[i] != all[j] {
      if j < |paths| {
        assert all[i][1..] == paths[i] && all[j][1..] == paths[j];
      }
    }
  }

  lemma {:induction false} EveryPosition(n: Node, path: seq<int>)
    requires At(n, path).Some?
    ensures path in Positions(n)
    decreases |path|
  {
    if path == [] {
      assert Positions(n)[0] == [];
    } else {
      var ns := Children(n);
      EveryPosition(ns[path[0]], path[1..]);
      assert path == [path[0]] + path[1..];
      UnderIsListed(ns, 0, path[0], path[1..]);
      assert path in PositionsIn(ns, 0);
    }
  }

  lemma IsUnder(k: nat, paths: seq<seq<int>>, path: seq<int>)
    requires path in paths
    ensures [k] + path in Under(k, paths)
  {
    var j :| 0 <= j < |paths| && paths[j] == path;
    assert Under(k, paths)[j] == [k] + path;
  }

  lemma {:induction false} UnderIsListed(ns: seq<Node>, k: nat, i: nat, path: seq<int>)
    requires k <= i < k + |ns| && path in Positions(ns[i - k])
    ensures [i] + path in PositionsIn(ns, k)
    decreases |ns|
  {
    if i == k {
      IsUnder(k, Positions(ns[0]), path);
    } else {
      UnderIsListed(ns[1..], k + 1, i, path);
    }
  }

  // The positions, among some, at which the finding is made.
  function Making(file: File, exceptions: map<string, set<string>>, tables: map<string, string>, f: Finding,
                  paths: seq<seq<int>>): seq<seq<int>>
    requires forall i :: 0 <= i < |paths| ==> At(file.tree, paths[i]).Some?
  {
    if paths == [] then []
    else
      (if Reported(file.path, Allowed(exceptions, file.path), tables, At(file.tree, paths[0]).value, f) then [paths[0]] else [])
      + Making(file, exceptions, tables, f, paths[1..])
  }

  lemma {:induction false} MakingMeans(file: File, exceptions: map<string, set<string>>, tables: map<string, string>,
                                       f: Finding, paths: seq<seq<int>>)
    requires forall i :: 0 <= i < |paths| ==> At(file.tree, paths[i]).Some?
    requires NoDup(paths)
    ensures var r := Making(file, exceptions, tables, f, paths);
            && NoDup(r)
            && forall path :: path in r <==>
                 path in paths
                 && Reported(file.path, Allowed(exceptions, file.path), tables, At(file.tree, path).value, f)
  {
    if paths != [] {
      MakingMeans(file, exceptions, tables, f, paths[1..]);
      assert paths == [paths[0]] + paths[1..];
      assert paths[0] !in paths[1..];
    }
  }

  lemma {:induction false} MakingCounts(file: File, exceptions: map<string, set<string>>, tables: map<string, string>,
                                        f: Finding, paths: seq<seq<int>>, nodes: seq<Node>)
    requires |paths| == |nodes| && forall i :: 0 <= i < |paths| ==> At(file.tree, paths[i]) == Some(nodes[i])
    ensures multiset(NodesFindings(file.path, Allowed(exceptions, file.path), tables, nodes))[f]
            == |Making(file, exceptions, tables, f, paths)|
  {
    if paths != [] {
      MakingCounts(file, exceptions, tables, f, paths[1..], nodes[1..]);
      if nodes[0].Call? { DeletedTableMeans(nodes[0], tables); }
    }
  }

  // Where a file makes the finding.
  predicate MadeAt(file: File, exceptions: map<string, set<string>>, tables: map<string, string>, f: Finding, path: seq<int>) {
    && At(file.tree, path).Some?
    && Reported(file.path, Allowed(exceptions, file.path), tables, At(file.tree, path).value, f)
  }

  ghost predicate AllPlaces(file: File, exceptions: map<string, set<string>>, tables: map<string, string>, f: Finding,
                            paths: seq<seq<int>>)
  {
    NoDup(paths) && forall path: seq<int> :: path in paths <==> MadeAt(file, exceptions, tables, f, path)
  }

  lemma MakingAll(file: File, exceptions: map<string, set<string>>, tables: map<string, string>, f: Finding)
    returns (paths: seq<seq<int>>)
    ensures AllPlaces(file, exceptions, tables, f, paths)
    ensures |paths| == multiset(FileFindings(file, exceptions, tables))[f]
  {
    var all := Positions(file.tree);
    PositionsMatch(file.tree);
    PositionsAreDistinct(file.tree);
    paths := Making(file, exceptions, tables, f, all);
    MakingMeans(file, exceptions, tables, f, all);
    MakingCounts(file, exceptions, tables, f, all, Subtree(file.tree));
    forall path: seq<int> ensures path in paths <==> MadeAt(file, exceptions, tables, f, path) {
      if At(file.tree, path).Some? { EveryPosition(file.tree, path); }
    }
  }

  /** A finding is made once for every position of its file that holds it: as often as there are such positions. */
  lemma EachDeleteIsReportedOnce(file: File, exceptions: map<string, set<string>>, tables: map<string, string>, f: Finding)
    ensures exists paths :: AllPlaces(file, exceptions, tables, f, paths)
                            && |paths| == multiset(FileFindings(file, exceptions, tables))[f]
  {
    var paths := MakingAll(file, exceptions, tables, f);
  }

  // What a finding says: a node deletes rows of a table that its file may not delete.
  predicate Reported(path: string, allowed: set<string>, tables: map<string, string>, n: Node, f: Finding) {
    && PhysicalDelete(n) && NamedTable(n, tables) !in allowed
    && f == Finding(LocationOf(path, n.line), NamedTable(n, tables))
  }

  // Some position of the file holds what the finding says, and no exception lets the file delete that table.
  ghost predicate Holds(file: File, exceptions: map<string, set<string>>, tables: map<string, string>, f: Finding) {
    && !(file.path in exceptions && f.table in exceptions[file.path])
    && exists path: seq<int> ::
         At(file.tree, path).Some? && Reported(file.path, {}, tables, At(file.tree, path).value, f)
  }

  lemma FileIsSoundAndComplete(file: File, exceptions: map<string, set<string>>, tables: map<string, string>, f: Finding)
    ensures f in FileFindings(file, exceptions, tables) <==> Holds(file, exceptions, tables, f)
  {
    var allowed := Allowed(exceptions, file.path);
    InNodesFindings(file.path, allowed, tables, Subtree(file.tree), f);
    assert forall n :: Reported(file.path, allowed, tables, n, f) <==>
                       Reported(file.path, {}, tables, n, f) && f.table !in allowed;
    if n :| n in Subtree(file.tree) && Reported(file.path, allowed, tables, n, f) {
      var path := WalkedHasPosition(file.tree, n);
    }
    forall path: seq<int> | At(file.tree, path).Some? && Reported(file.path, {}, tables, At(file.tree, path).value, f)
      ensures At(file.tree, path).value in Subtree(file.tree)
    {
      PositionIsWalked(file.tree, path);
    }
  }

  lemma InFilesFindings(files: seq<File>, exceptions: map<string, set<string>>, tables: map<string, string>, f: Finding)
    ensures f in FilesFindings(files, exceptions, tables) <==>
            exists i :: 0 <= i < |files| && f in FileFindings(files[i], exceptions, tables)
  {
    var parts := seq(|files|, i requires 0 <= i < |files| => FileFindings(files[i], exceptions, tables));
    InFlat(parts, f);
    forall i | 0 <= i < |files| ensures f in parts[i] <==> f in FileFindings(files[i], exceptions, tables) {}
  }

  /** The findings are exactly the physical deletes that some position of some file holds and that the file may not
      make, with the table and the location of each. */
  lemma ScanIsSoundAndComplete(
      files: seq<File>, exceptions: map<string, set<string>>, tables: map<string, string>, f: Finding)
    ensures f in FilesFindings(files, exceptions, tables) <==>
            exists i :: 0 <= i < |files| && Holds(files[i], exceptions, tables, f)
  {
    InFilesFindings(files, exceptions, tables, f);
    forall i | 0 <= i < |files|
      ensures f in FileFindings(files[i], exceptions, tables) <==> Holds(files[i], exceptions, tables, f)
    {
      FileIsSoundAndComplete(files[i], exceptions, tables, f);
    }
  }

  // ---------------------------------------------------------------------- triggers in the migrations

  // What `literal_eval` makes of a node: a value, which may serve as a member of a set or not; an error of value; or an
  // error of type, for a member that cannot be one.
  datatype Literal = Value(hashable: bool) | Malformed | Unhashable

  function Eval(n: Node): Literal {
    match n
    case Constant(_, _) => Value(true)
    case Collection(form, items, _) =>
      (match EvalAll(items, form == SetForm)
       case Value(hashable) => Value(form == TupleForm && hashable)
       case error => error)
    case Call(func, args, keywords, _) =>
      if func == Name("set") && args == [] && keywords == [] then Value(false) else Malformed
    case Mapping(entries, unpacks, _) => if unpacks then Malformed else EvalPairs(entries)
    case Unary(_, _, _) => if SignedNumber(n) then Value(true) else Malformed
    case Binary(added, left, right, _) =>
      if added && SignedReal(left) && right.Constant? && right.kind == Imaginary then Value(true) else Malformed
    case _ => Malformed
  }

  predicate SignedNumber(n: Node) {
    n.Unary? && n.signed && n.operand.Constant? && n.operand.kind in {Real, Imaginary}
  }

  predicate SignedReal(n: Node) {
    (n.Constant? && n.kind == Real) || (SignedNumber(n) && n.operand.kind == Real)
  }

  // What `literal_eval` accepts, and what of it may be a member: told by the form of the node alone.

  predicate Accepted(n: Node)
    decreases n
  {
    match n
    case Constant(_, _) => true
    case Collection(form, items, _) =>
      forall i :: 0 <= i < |items| ==> Accepted(items[i]) && (form == SetForm ==> Member(items[i]))
    case Call(func, args, keywords, _) => func == Name("set") && |args| + |keywords| == 0
    case Mapping(entries, unpacks, _) =>
      && !unpacks
      && forall i :: 0 <= i < |entries| - |entries| % 2 ==> Accepted(entries[i]) && (i % 2 == 0 ==> Member(entries[i]))
    case Unary(signed, operand, _) => signed && operand.Constant? && (operand.kind == Real || operand.kind == Imaginary)
    case Binary(added, left, right, _) => added && IsReal(left) && right.Constant? && right.kind == Imaginary
    case _ => false
  }

  // A real number, with or without a sign.
  predicate IsReal(n: Node) {
    match n
    case Constant(kind, _) => kind == Real
    case Unary(signed, operand, _) => signed && operand.Constant? && operand.kind == Real
    case _ => false
  }

  predicate Member(n: Node)
    decreases n
  {
    match n
    case Collection(form, items, _) => form == TupleForm && forall i :: 0 <= i < |items| ==> Member(items[i])
    case Call(_, _, _, _) => false
    case Mapping(_, _, _) => false
    case _ => true
  }

  // The members in their order; the first error ends it.
  function EvalAll(ns: seq<Node>, members: bool): Literal {
    if ns == [] then Value(true)
    else
      match Eval(ns[0])
      case Value(hashable) =>
        if members && !hashable then Unhashable
        else (match EvalAll(ns[1..], members)
              case Value(rest) => Value(hashable && rest)
              case error => error)
      case error => error
  }

  // A key is tried as a member once its value is known.
  function EvalPairs(entries: seq<Node>): Literal {
    if |entries| < 2 then Value(false)
    else
      match Eval(entries[0])
      case Value(hashable) =>
        if !Eval(entries[1]).Value? then Eval(entries[1])
        else if !hashable then Unhashable
        else EvalPairs(entries[2..])
      case error => error
  }

  // A list is accepted if all its elements are, and may be a member if all may.
  predicate AllAccepted(ns: seq<Node>, members: bool) {
    forall i :: 0 <= i < |ns| ==> Accepted(ns[i]) && (members ==> Member(ns[i]))
  }

  predicate AllMembers(ns: seq<Node>) { forall i :: 0 <= i < |ns| ==> Member(ns[i]) }

  /** A literal has a value if and only if its form is accepted, and its value may be a member if and only if the form
      says so. */
  lemma {:induction false} EvalMeans(n: Node)
    ensures Eval(n).Value? <==> Accepted(n)
    ensures Eval(n).Value? ==> Eval(n).hashable == Member(n)
    decreases n
  {
    match n
    case Collection(form, items, _) =>
      EvalAllMeans(items, form == SetForm);
      assert Accepted(n) <==> AllAccepted(items, form == SetForm);
    case Mapping(entries, unpacks, _) => EvalPairsMeans(entries);
    case _ =>
  }

  lemma {:induction false} EvalAllMeans(ns: seq<Node>, members: bool)
    ensures EvalAll(ns, members).Value? <==> AllAccepted(ns, members)
    ensures EvalAll(ns, members).Value? ==> EvalAll(ns, members).hashable == AllMembers(ns)
    decreases ns
  {
    if ns != [] {
      EvalMeans(ns[0]);
      EvalAllMeans(ns[1..], members);
      assert ns == [ns[0]] + ns[1..];
    }
  }

  predicate PairsAccepted(entries: seq<Node>) {
    forall i :: 0 <= i < |entries| - |entries| % 2 ==> Accepted(entries[i]) && (i % 2 == 0 ==> Member(entries[i]))
  }

  lemma {:induction false} EvalPairsMeans(entries: seq<Node>)
    ensures EvalPairs(entries).Value? <==> PairsAccepted(entries)
    ensures EvalPairs(entries).Value? ==> !EvalPairs(entries).hashable
    decreases entries
  {
    if |entries| >= 2 {
      EvalMeans(entries[0]);
      EvalMeans(entries[1]);
      var rest := entries[2..];
      EvalPairsMeans(rest);
      assert forall i :: 2 <= i < |entries| ==> entries[i] == rest[i - 2];
      if PairsAccepted(entries) {
        forall i | 0 <= i < |rest| - |rest| % 2 ensures Accepted(rest[i]) && (i % 2 == 0 ==> Member(rest[i])) {
          assert rest[i] == entries[i + 2];
        }
      }
    }
  }

  // The first element that is not accepted decides between the two errors.
  predicate FirstFault(ns: seq<Node>, members: bool, i: nat) {
    && i < |ns| && AllAccepted(ns[..i], members)
    && !(Accepted(ns[i]) && (members ==> Member(ns[i])))
  }

  /** A collection that is not accepted raises the error of its first faulty element: that of the element itself, or,
      in a set, the error of type of an element that is accepted but may not be a member. */
  lemma {:induction false} FirstFaultDecides(ns: seq<Node>, members: bool, i: nat)
    requires FirstFault(ns, members, i)
    ensures EvalAll(ns, members) == if Accepted(ns[i]) then Unhashable else Eval(ns[i])
  {
    EvalMeans(ns[0]);
    EvalMeans(ns[i]);
    if i > 0 {
      assert ns[..i][0] == ns[0];
      assert ns[1..][..i - 1] == ns[..i][1..];
      FirstFaultDecides(ns[1..], members, i - 1);
    }
  }

  // In a dictionary the key of a pair is evaluated, then its value, and then the key is tried as a member.
  predicate FirstPairFault(entries: seq<Node>, i: nat) {
    2 * i + 1 < |entries| && PairsAccepted(entries[..2 * i]) && !PairsAccepted(entries[..2 * i + 2])
  }

  lemma {:induction false} FirstPairDecides(entries: seq<Node>, i: nat)
    requires FirstPairFault(entries, i)
    ensures var key, value := entries[2 * i], entries[2 * i + 1];
            EvalPairs(entries) ==
            if !Accepted(key) then Eval(key) else if !Accepted(value) then Eval(value) else Unhashable
  {
    EvalMeans(entries[0]);
    EvalMeans(entries[1]);
    if i > 0 {
      var rest := entries[2..];
      assert entries[..2 * i][0] == entries[0] && entries[..2 * i][1] == entries[1];
      PairsShift(entries[..2 * i]);
      PairsShift(entries[..2 * i + 2]);
      assert rest[..2 * (i - 1)] == entries[..2 * i][2..];
      assert rest[..2 * (i - 1) + 2] == entries[..2 * i + 2][2..];
      FirstPairDecides(rest, i - 1);
    } else {
      PairsShift(entries[..2]);
      assert entries[..2][2..] == [];
    }
  }

  lemma PairsShift(entries: seq<Node>)
    requires |entries| >= 2
    ensures PairsAccepted(entries) <==>
              Accepted(entries[0]) && Member(entries[0]) && Accepted(entries[1]) && PairsAccepted(entries[2..])
  {
    var rest := entries[2..];
    assert forall i :: 2 <= i < |entries| ==> entries[i] == rest[i - 2];
    if PairsAccepted(entries) {
      forall i | 0 <= i < |rest| - |rest| % 2 ensures Accepted(rest[i]) && (i % 2 == 0 ==> Member(rest[i])) {
        assert rest[i] == entries[i + 2];
      }
    }
  }

  // The error of type, told by the form: some first fault is a member that cannot be one, here or below.
  ghost predicate TypeFault(n: Node)
    decreases n
  {
    match n
    case Collection(form, items, _) =>
      exists i: nat :: i < |items| && FirstFault(items, form == SetForm, i) && (Accepted(items[i]) || TypeFault(items[i]))
    case Mapping(entries, unpacks, _) =>
      && !unpacks
      && exists i: nat :: 2 * i + 1 < |entries| && FirstPairFault(entries, i)
           && (if !Accepted(entries[2 * i]) then TypeFault(entries[2 * i])
               else Accepted(entries[2 * i + 1]) || TypeFault(entries[2 * i + 1]))
    case _ => false
  }

  lemma {:induction false} SomeFirstFault(ns: seq<Node>, members: bool) returns (i: nat)
    requires !AllAccepted(ns, members)
    ensures FirstFault(ns, members, i)
  {
    var front, last := ns[..|ns| - 1], ns[|ns| - 1];
    assert ns == front + [last];
    if AllAccepted(front, members) {
      i := |front|;
    } else {
      i := SomeFirstFault(front, members);
      assert front[..i] == ns[..i];
    }
  }

  lemma {:induction false} SomeFirstPairFault(entries: seq<Node>) returns (i: nat)
    requires !PairsAccepted(entries)
    ensures FirstPairFault(entries, i)
    decreases |entries|
  {
    var pairs := |entries| - |entries| % 2;
    var front := entries[..pairs - 2];
    if PairsAccepted(front) {
      i := (pairs - 2) / 2;
      assert front == entries[..2 * i];
    } else {
      i := SomeFirstPairFault(front);
      assert front[..2 * i] == entries[..2 * i] && front[..2 * i + 2] == entries[..2 * i + 2];
    }
  }

  lemma AcceptedBelow(ns: seq<Node>, members: bool, i: nat, j: nat)
    requires i < j <= |ns| && AllAccepted(ns[..j], members)
    ensures Accepted(ns[i]) && (members ==> Member(ns[i]))
  {
    assert ns[..j][i] == ns[i];
  }

  lemma FirstFaultIsOne(ns: seq<Node>, members: bool, i: nat, j: nat)
    requires FirstFault(ns, members, i) && FirstFault(ns, members, j)
    ensures i == j
  {
    if i < j { AcceptedBelow(ns, members, i, j); }
    if j < i { AcceptedBelow(ns, members, j, i); }
  }

  lemma PairsBelow(entries: seq<Node>, i: nat, j: nat)
    requires i < j && 2 * j <= |entries| && PairsAccepted(entries[..2 * j])
    ensures PairsAccepted(entries[..2 * i + 2])
  {
    PrefixAccepted(entries[..2 * j], 2 * i + 2);
    assert entries[..2 * j][..2 * i + 2] == entries[..2 * i + 2];
  }

  lemma FirstPairFaultIsOne(entries: seq<Node>, i: nat, j: nat)
    requires FirstPairFault(entries, i) && FirstPairFault(entries, j)
    ensures i == j
  {
    if i < j { PairsBelow(entries, i, j); }
    if j < i { PairsBelow(entries, j, i); }
  }

  /** The error of type comes out exactly where the form says so; a literal that is neither accepted nor faulty in this
      way is malformed. */
  lemma {:induction false} EvalFaultMeans(n: Node)
    ensures Eval(n) == Unhashable <==> TypeFault(n)
    decreases n
  {
    EvalMeans(n);
    match n
    case Collection(form, items, _) => CollectionFaultMeans(items, form == SetForm);
    case Mapping(entries, unpacks, _) => if !unpacks { PairsFaultMeans(entries); }
    case _ =>
  }

  lemma {:induction false} CollectionFaultMeans(items: seq<Node>, members: bool)
    ensures EvalAll(items, members) == Unhashable <==>
              exists i: nat :: i < |items| && FirstFault(items, members, i) && (Accepted(items[i]) || TypeFault(items[i]))
    decreases items
  {
    EvalAllMeans(items, members);
    if !AllAccepted(items, members) {
      var i := SomeFirstFault(items, members);
      FirstFaultDecides(items, members, i);
      EvalFaultMeans(items[i]);
      forall j: nat | j < |items| && FirstFault(items, members, j) ensures i == j { FirstFaultIsOne(items, members, i, j); }
    } else {
      forall j: nat | j < |items| ensures !FirstFault(items, members, j) {}
    }
  }

  lemma {:induction false} PairsFaultMeans(entries: seq<Node>)
    ensures EvalPairs(entries) == Unhashable <==>
              exists i: nat :: 2 * i + 1 < |entries| && FirstPairFault(entries, i)
                && (if !Accepted(entries[2 * i]) then TypeFault(entries[2 * i])
                    else Accepted(entries[2 * i + 1]) || TypeFault(entries[2 * i + 1]))
    decreases entries
  {
    EvalPairsMeans(entries);
    if !PairsAccepted(entries) {
      var i := SomeFirstPairFault(entries);
      FirstPairDecides(entries, i);
      EvalFaultMeans(entries[2 * i]);
      EvalFaultMeans(entries[2 * i + 1]);
      EvalMeans(entries[2 * i]);
      EvalMeans(entries[2 * i + 1]);
      forall j: nat | FirstPairFault(entries, j) ensures i == j { FirstPairFaultIsOne(entries, i, j); }
    } else {
      forall j: nat | 2 * j + 1 < |entries| ensures !FirstPairFault(entries, j) { PrefixAccepted(entries, 2 * j + 2); }
    }
  }

  lemma PrefixAccepted(entries: seq<Node>, n: nat)
    requires PairsAccepted(entries) && n <= |entries| && n % 2 == 0
    ensures PairsAccepted(entries[..n])
  {
    forall i | 0 <= i < n ensures Accepted(entries[..n][i]) && (i % 2 == 0 ==> Member(entries[..n][i])) {
      assert entries[..n][i] == entries[i];
    }
  }

  predicate NamesTheList(n: Node) {
    n.Assign? && exists i :: 0 <= i < |n.targets| && n.targets[i] == Name("APPEND_ONLY_TABLES")
  }

  // What `str()` gives for an element that is a literal.
  function Display(n: Node): string {
    match n
    case Constant(_, display) => display
    case Collection(_, _, display) => display
    case Mapping(_, _, display) => display
    case Unary(_, _, display) => display
    case Binary(_, _, _, display) => display
    case _ => "set()"
  }

  // The tables that a node declares: an assignment to APPEND_ONLY_TABLES of a string, or of a collection.
  function DeclaredTables(n: Node): set<string> {
    if !NamesTheList(n) || !Eval(n.value).Value? then {}
    else if n.value.Constant? && n.value.kind == Text then {Display(n.value)}
    else if n.value.Collection? then set i | 0 <= i < |n.value.items| :: Display(n.value.items[i])
    else {}
  }

  // The one error that the function lets through.
  predicate Raises(n: Node) { NamesTheList(n) && Eval(n.value) == Unhashable }

  ghost predicate Declares(tree: Node, table: string) {
    exists n :: n in Subtree(tree) && table in DeclaredTables(n)
  }

  ghost predicate TreeRaises(tree: Node) {
    exists n :: n in Subtree(tree) && Raises(n)
  }

  // The body of the loop over the nodes.
  method TablesOf(n: Node) returns (tables: set<string>, raised: bool)
    ensures raised <==> Raises(n)
    ensures tables == DeclaredTables(n)
  {
    tables, raised := {}, false;
    if NamesTheList(n) {
      var value := Eval(n.value);
      if value == Unhashable {
        return {}, true;
      }
      if value.Value? {
        if n.value.Constant? && n.value.kind == Text {
          tables := {Display(n.value)};
        } else if n.value.Collection? {
          tables := set i | 0 <= i < |n.value.items| :: Display(n.value.items[i]);
        }
      }
    }
  }

  ghost predicate SomeDeclares(files: seq<File>, table: string) {
    exists i :: 0 <= i < |files| && Declares(files[i].tree, table)
  }

  ghost predicate SomeRaises(files: seq<File>) {
    exists i :: 0 <= i < |files| && TreeRaises(files[i].tree)
  }

  lemma OneMoreFile(files: seq<File>, k: nat, table: string)
    requires k < |files|
    ensures SomeDeclares(files[..k + 1], table) <==> SomeDeclares(files[..k], table) || Declares(files[k].tree, table)
    ensures SomeRaises(files[..k + 1]) <==> SomeRaises(files[..k]) || TreeRaises(files[k].tree)
  {
    assert files[..k + 1] == files[..k] + [files[k]];
  }

  lemma SomeFileRaises(files: seq<File>, k: nat)
    requires k < |files| && TreeRaises(files[k].tree)
    ensures SomeRaises(files)
  {
  }

  lemma TablesOfOneMore(files: seq<File>, k: nat, tables: set<string>, more: set<string>)
    requires k < |files| && forall t :: t in tables <==> SomeDeclares(files[..k], t)
    requires forall t :: t in more <==> Declares(files[k].tree, t)
    ensures forall t :: t in tables + more <==> SomeDeclares(files[..k + 1], t)
  {
    forall t ensures t in tables + more <==> SomeDeclares(files[..k + 1], t) { OneMoreFile(files, k, t); }
  }

  /** The tables that the migrations protect are those that some position of some file declares; there is no answer if
      and only if some declaration holds a member that cannot be one. */
  method MigrationAppendOnlyTables(files: seq<File>) returns (r: Option<set<string>>)
    ensures r.None? <==> SomeRaises(files)
    ensures r.Some? ==> forall t :: t in r.value <==> SomeDeclares(files, t)
  {
    var tables: set<string> := {};
    for k := 0 to |files|
      invariant forall t :: t in tables <==> SomeDeclares(files[..k], t)
      invariant !SomeRaises(files[..k])
    {
      OneMoreFile(files, k, "");
      var more := DeclaredInTree(files[k].tree);
      if more.None? {
        SomeFileRaises(files, k);
        return None;
      }
      TablesOfOneMore(files, k, tables, more.value);
      tables := tables + more.value;
    }
    assert files[..|files|] == files;
    r := Some(tables);
  }

  // The text of a literal.
  predicate Shows(n: Node, text: string) {
    match n
    case Constant(_, display) => display == text
    case Collection(_, _, display) => display == text
    case Mapping(_, _, display) => display == text
    case Unary(_, _, display) => display == text
    case Binary(_, _, _, display) => display == text
    case Call(_, _, _, _) => text == "set()"
    case _ => false
  }

  /** A node declares a table if and only if it assigns an accepted literal to the list, among its targets, and the
      literal is a string with that text or a list, tuple or set with an element that shows as it. */
  lemma DeclaredTablesMean(n: Node, table: string)
    ensures table in DeclaredTables(n) <==>
              && n.Assign? && Name("APPEND_ONLY_TABLES") in n.targets && Accepted(n.value)
              && (|| (n.value.Constant? && n.value.kind == Text && Shows(n.value, table))
                  || (n.value.Collection? && exists i :: 0 <= i < |n.value.items| && Shows(n.value.items[i], table)))
  {
    if n.Assign? {
      EvalMeans(n.value);
      if n.value.Collection? && Accepted(n.value) {
        forall i | 0 <= i < |n.value.items| ensures Shows(n.value.items[i], table) <==> Display(n.value.items[i]) == table {
          assert Accepted(n.value.items[i]);
        }
      }
    }
  }

  // The one error that comes through: an assignment to the list of a literal with a fault of type.
  lemma RaisesMeans(n: Node)
    ensures Raises(n) <==> n.Assign? && Name("APPEND_ONLY_TABLES") in n.targets && TypeFault(n.value)
  {
    if n.Assign? { EvalFaultMeans(n.value); }
  }

  lemma DeclaresIsAPosition(tree: Node, table: string)
    ensures Declares(tree, table) <==> exists path: seq<int>, n :: At(tree, path) == Some(n) && table in DeclaredTables(n)
  {
    if Declares(tree, table) {
      var n :| n in Subtree(tree) && table in DeclaredTables(n);
      var path := WalkedHasPosition(tree, n);
    }
    forall path: seq<int>, n | At(tree, path) == Some(n) && table in DeclaredTables(n) ensures Declares(tree, table) {
      PositionIsWalked(tree, path);
    }
  }

  method DeclaredInTree(tree: Node) returns (r: Option<set<string>>)
    ensures r.None? <==> TreeRaises(tree)
    ensures r.Some? ==> forall t :: t in r.value <==> Declares(tree, t)
  {
    var tables: set<string> := {};
    var todo := [tree];
    ghost var visited: seq<Node> := [];
    assert Forest(todo) == Subtree(tree);
    while todo != []
      invariant forall n :: n in Subtree(tree) <==> n in visited || n in Forest(todo)
      invariant forall t :: t in tables <==> exists n :: n in visited && t in DeclaredTables(n)
      invariant forall n :: n in visited ==> !Raises(n)
      decreases |Forest(todo)|
    {
      var node := todo[0];
      SubtreeIsChildren(node);
      ForestConcat(todo[1..], Children(node));
      assert node in Forest(todo);
      var more, raised := TablesOf(node);
      if raised {
        return None;
      }
      todo := todo[1..] + Children(node);
      visited := visited + [node];
      tables := tables + more;
    }
    r := Some(tables);
  }
}
