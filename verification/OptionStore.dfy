/** The server's option store (src/server/option.c): a chained hash table from option names, in either case, to
    values that two names of the same option share. */
module OptionStore {
  import opened Names
  import opened OptionRules

  const HASH_SIZE := 317

  // ----- Option_hash_string -----

  function Xor(a: nat, b: nat): nat
    requires a < 0x1_0000_0000 && b < 0x1_0000_0000
  {
    ((a as bv32) ^ (b as bv32)) as nat
  }

  /** The repeated folding of a hash value gets below the limit. */
  function Folded(h: nat): (r: nat)
    ensures r <= HASH_SIZE
    decreases h
  {
    if h > HASH_SIZE then
      FoldSmaller(h);
      Folded(h % HASH_SIZE + h / HASH_SIZE)
    else h
  }

  lemma FoldSmaller(h: nat)
    requires h > HASH_SIZE
    ensures h % HASH_SIZE + h / HASH_SIZE < h
  {
  }

  /** The hash of the first i bytes of a name, before the final reduction. */
  function HashPrefix(name: Name, i: nat): (r: nat)
    requires i <= |name| < 0x8000_0000
    ensures r <= HASH_SIZE
  {
    if i == 0 then 0 else Folded(Xor(HashPrefix(name, i - 1) * 8 + UpperByte(name[i - 1]), i - 1))
  }

  function Hash(name: Name): (r: nat)
    requires |name| < 0x8000_0000
    ensures r < HASH_SIZE
  {
    HashPrefix(name, |name|) % HASH_SIZE
  }

  lemma {:induction false} PrefixIgnoresCase(a: Name, b: Name, i: nat)
    requires Upper(a) == Upper(b) && i <= |a| < 0x8000_0000
    ensures |a| == |b| && HashPrefix(a, i) == HashPrefix(b, i)
    decreases i
  {
    hide Xor, Folded;
    assert |Upper(a)| == |Upper(b)|;
    if i > 0 {
      PrefixIgnoresCase(a, b, i - 1);
      assert Upper(a)[i - 1] == Upper(b)[i - 1];
    }
  }

  /** Names of the same option are sought in the same chain. */
  lemma HashIgnoresCase(a: Name, b: Name)
    requires Upper(a) == Upper(b) && |a| < 0x8000_0000
    ensures |a| == |b| && Hash(a) == Hash(b)
  {
    PrefixIgnoresCase(a, b, |a|);
  }

  method HashString(name: Name) returns (r: nat)
    requires |name| < 0x8000_0000
    ensures r == Hash(name)
  {
    hide Xor, Folded;
    var h := 0;
    for i := 0 to |name|
      invariant h == HashPrefix(name, i) <= HASH_SIZE
    {
      var c := name[i];
      if 97 <= c <= 122 { c := c - 32; }
      h := Xor(h * 8 + c, i);
      h := Fold(h);
    }
    r := h % HASH_SIZE;
  }

  /** The folding loop. */
  method Fold(h0: nat) returns (h: nat)
    ensures h == Folded(h0)
  {
    h := h0;
    while h > HASH_SIZE
      invariant Folded(h) == Folded(h0)
      decreases h
    {
      FoldSmaller(h);
      h := h % HASH_SIZE + h / HASH_SIZE;
    }
  }

  // ----- The table -----

  class HashValue {
    var setting: Setting
    /** The origins from which the option may be set; options without a description may be set from anywhere. */
    const allowed: set<Origin>
    /** The first setting and all permitted attempts to change it. */
    ghost var history: seq<Setting>

    /** The setting in force is the outcome of the history. */
    ghost predicate Settled()
      reads this
    {
      history != [] && Settable(history) && setting == Outcome(history)
    }

    constructor (setting: Setting, allowed: set<Origin>)
      ensures Settled() && this.setting == setting && this.allowed == allowed && history == [setting]
    {
      this.setting, this.allowed, history := setting, allowed, [setting];
    }

    /** The setting in force is the winner by class among all permitted attempts. */
    lemma InForce(i: int)
      requires Settled() && Wins(history, i)
      ensures setting == history[i]
    {
      OutcomeIsWinner(history, i);
    }

    /** Option_change_node: an attempt from an origin that is not permitted changes nothing; any other attempt
        counts. */
    method Change(next: Setting)
      requires Settled() && next.origin != INIT
      modifies this
      ensures Settled() && history == if next.origin in allowed then old(history) + [next] else old(history)
      ensures setting == if next.origin in allowed && Accepts(old(setting), next) then next else old(setting)
    {
      if next.origin !in allowed { return; }
      var ok := false;
      match next.origin {
        case COMMAND => ok := true;
        case DEFAULTS =>
          match setting.origin {
            case COMMAND =>
            case DEFAULTS => ok := !setting.force;
            case MAP => ok := next.force;
            case PASSWORD =>
            case INIT => ok := true;
          }
        case MAP =>
          match setting.origin {
            case COMMAND =>
            case DEFAULTS => ok := !setting.force;
            case MAP => ok := !setting.force;
            case PASSWORD =>
            case INIT => ok := true;
          }
        case PASSWORD =>
          match setting.origin {
            case COMMAND =>
            case DEFAULTS => ok := true;
            case MAP => ok := true;
            case PASSWORD => ok := !setting.force;
            case INIT => ok := true;
          }
      }
      assert ok == Accepts(setting, next);
      assert (history + [next])[..|history|] == history;
      history := history + [next];
      if ok { setting := next; }
    }
  }

  class HashNode {
    var next: HashNode?
    const name: Name
    const value: HashValue

    constructor (name: Name, value: HashValue)
      ensures next == null && this.name == name && this.value == value
    {
      next, this.name, this.value := null, name, value;
    }
  }

  /** The description of an option: its two names, its default value, and the origins from which it may be set. */
  datatype Desc = Desc(name: Name, commandLineOption: Name, defaultValue: Text, allowed: set<Origin>)

  class Options {
    const buckets: array<HashNode?>
    /** The nodes of each chain in order, and all of them. */
    ghost var chains: seq<seq<HashNode>>
    ghost var nodes: set<HashNode>
    /** What the table stands for: the value of each known name, written in upper case. */
    ghost var contents: map<Name, HashValue>

    ghost predicate Linked()
      reads this`chains, this`nodes, buckets, nodes`next
    {
      && buckets.Length == |chains| == HASH_SIZE
      && (forall ix, k :: 0 <= ix < HASH_SIZE && 0 <= k < |chains[ix]| ==> chains[ix][k] in nodes)
      && (forall ix :: 0 <= ix < HASH_SIZE ==> buckets[ix] == At(chains[ix], 0))
      && (forall ix, k :: 0 <= ix < HASH_SIZE && 0 <= k < |chains[ix]| ==> chains[ix][k].next == At(chains[ix], k + 1))
    }

    static function At(chain: seq<HashNode>, k: nat): HashNode? {
      if k < |chain| then chain[k] else null
    }

    /** Every node is in the chain of its hash value and stands for an entry, and every entry has a node. */
    ghost predicate Indexed()
      reads this
    {
      IndexedBy(chains, contents)
    }

    static ghost predicate IndexedBy(chains: seq<seq<HashNode>>, contents: map<Name, HashValue>) {
      |chains| == HASH_SIZE && EntriesHaveNodes(chains, contents)
      && forall ix, k :: 0 <= ix < HASH_SIZE && 0 <= k < |chains[ix]| ==> NodeFits(chains[ix][k], ix, contents)
    }

    static ghost predicate NodeFits(n: HashNode, ix: nat, contents: map<Name, HashValue>) {
      |n.name| < 0x8000_0000 && Hash(n.name) == ix && Upper(n.name) in contents && contents[Upper(n.name)] == n.value
    }

    static ghost predicate EntriesHaveNodes(chains: seq<seq<HashNode>>, contents: map<Name, HashValue>) {
      forall key :: key in contents ==> HasNode(chains, key)
    }

    static ghost predicate HasNode(chains: seq<seq<HashNode>>, key: Name) {
      exists ix, k :: 0 <= ix < |chains| && 0 <= k < |chains[ix]| && Upper(chains[ix][k].name) == key
    }

    ghost predicate Valid()
      reads this, buckets, nodes`next
    {
      Linked() && Indexed()
    }

    constructor ()
      ensures Valid() && contents == map[] && fresh(buckets) && nodes == {}
    {
      buckets := new HashNode?[HASH_SIZE](_ => null);
      chains, nodes, contents := seq(HASH_SIZE, _ => []), {}, map[];
    }

    /** The node that stands for a name, or none if the name is unknown. */
    method GetNode(name: Name) returns (np: HashNode?)
      requires Valid() && |name| < 0x8000_0000
      ensures np == null <==> Upper(name) !in contents
      ensures np != null ==> np in nodes && Upper(np.name) == Upper(name) && np.value == contents[Upper(name)]
    {
      hide Hash, Upper, Linked, Indexed;
      var ix := HashString(name);
      HeadOf(ix);
      np := buckets[ix];
      ghost var k := 0;
      while np != null
        invariant k <= |chains[ix]| && np == At(chains[ix], k)
        invariant forall j :: 0 <= j < k ==> Upper(chains[ix][j].name) != Upper(name)
        decreases |chains[ix]| - k
      {
        NodeAt(ix, k);
        if Upper(np.name) == Upper(name) { return; }
        np := np.next;
        k := k + 1;
      }
      if Upper(name) in contents { Reachable(name, ix); }
    }

    lemma HeadOf(ix: nat)
      requires Linked() && ix < HASH_SIZE
      ensures buckets.Length == |chains| == HASH_SIZE && buckets[ix] == At(chains[ix], 0)
    {
    }

    lemma NodeAt(ix: nat, k: nat)
      requires Valid() && ix < HASH_SIZE && |chains| == HASH_SIZE && k < |chains[ix]|
      ensures var n := chains[ix][k];
              n in nodes && n.next == At(chains[ix], k + 1) && Upper(n.name) in contents && contents[Upper(n.name)] == n.value
    {
      hide Hash, Upper;
      assert NodeFits(chains[ix][k], ix, contents);
    }

    /** A known name is in the chain of its hash value. */
    lemma Reachable(name: Name, ix: nat)
      requires Valid() && |name| < 0x8000_0000 && ix == Hash(name) && Upper(name) in contents && |chains| == HASH_SIZE
      ensures exists k :: 0 <= k < |chains[ix]| && Upper(chains[ix][k].name) == Upper(name)
    {
      hide Hash;
      assert HasNode(chains, Upper(name));
      var i, k :| 0 <= i < |chains| && 0 <= k < |chains[i]| && Upper(chains[i][k].name) == Upper(name);
      assert NodeFits(chains[i][k], i, contents);
      HashIgnoresCase(chains[i][k].name, name);
    }

    // ----- Adding options -----

    method Link(node: HashNode, ix: nat)
      requires Linked() && ix < HASH_SIZE && node !in nodes
      modifies this`chains, this`nodes, buckets, node`next
      ensures Linked() && |old(chains)| == HASH_SIZE && chains == old(chains)[ix := [node] + old(chains)[ix]]
      ensures nodes == old(nodes) + {node}
    {
      node.next := buckets[ix];
      buckets[ix] := node;
      chains := chains[ix := [node] + chains[ix]];
      nodes := nodes + {node};
    }

    /** Puts a node for a new name at the head of its chain. */
    method Push(node: HashNode, ix: nat)
      requires Valid() && |node.name| < 0x8000_0000 && ix == Hash(node.name)
      requires node !in nodes && Upper(node.name) !in contents
      modifies this`chains, this`nodes, this`contents, buckets, node`next
      ensures Valid() && contents == old(contents)[Upper(node.name) := node.value] && nodes == old(nodes) + {node}
    {
      hide Hash, Upper, IndexedBy, Linked;
      PushIndexed(node, ix);
      Link(node, ix);
      contents := contents[Upper(node.name) := node.value];
    }

    lemma PushIndexed(node: HashNode, ix: nat)
      requires Indexed() && |node.name| < 0x8000_0000 && ix == Hash(node.name) && Upper(node.name) !in contents
      ensures |chains| == HASH_SIZE
      ensures IndexedBy(chains[ix := [node] + chains[ix]], contents[Upper(node.name) := node.value])
    {
      hide Hash, Upper, EntriesHaveNodes;
      PushEntry(node, ix);
    }

    lemma PushEntry(node: HashNode, ix: nat)
      requires |chains| == HASH_SIZE && ix < HASH_SIZE && EntriesHaveNodes(chains, contents)
      ensures EntriesHaveNodes(chains[ix := [node] + chains[ix]], contents[Upper(node.name) := node.value])
    {
      hide Upper;
      var more := chains[ix := [node] + chains[ix]];
      assert more[ix][0] == node;
      forall key | key in contents ensures HasNode(more, key) {
        assert HasNode(chains, key);
        var i, k :| 0 <= i < |chains| && 0 <= k < |chains[i]| && Upper(chains[i][k].name) == key;
        assert more[i][if i == ix then k + 1 else k] == chains[i][k];
      }
    }

    ghost function Values(): set<HashValue>
      reads this
    {
      set key | key in contents :: contents[key]
    }

    ghost predicate AllSettled()
      reads this, Values()
    {
      forall v :: v in Values() ==> v.Settled()
    }

    /** Option_add_node.  The server ends with an error if the name is already known. */
    method AddNode(node: HashNode) returns (ok: bool)
      requires Valid() && |node.name| < 0x8000_0000 && node !in nodes
      modifies this`chains, this`nodes, this`contents, buckets, node`next
      ensures Valid() && (ok <==> Upper(node.name) !in old(contents))
      ensures ok ==> contents == old(contents)[Upper(node.name) := node.value] && nodes == old(nodes) + {node}
      ensures !ok ==> contents == old(contents) && nodes == old(nodes)
    {
      hide Hash, Upper, Valid;
      var np := GetNode(node.name);
      if np != null { return false; }
      var ix := HashString(node.name);
      Push(node, ix);
      ok := true;
    }

    /** Option_add_desc: both names of a new option lead to the same value.  The server ends with an error if one of
        them is known already. */
    method AddDesc(desc: Desc) returns (ok: bool, ghost v: HashValue)
      requires Valid() && |desc.name| < 0x8000_0000 && |desc.commandLineOption| < 0x8000_0000
      modifies this`chains, this`nodes, this`contents, buckets
      ensures Valid() && fresh(v) && fresh(nodes - old(nodes))
      ensures ok <==> Upper(desc.name) !in old(contents) && Upper(desc.commandLineOption) !in old(contents)
      ensures ok ==> contents == old(contents)[Upper(desc.name) := v][Upper(desc.commandLineOption) := v]
      ensures v.Settled() && v.setting == Setting(desc.defaultValue, false, INIT) && v.allowed == desc.allowed
    {
      hide Hash, Upper, Valid;
      var val := new HashValue(Setting(desc.defaultValue, false, INIT), desc.allowed);
      v := val;
      var node1 := new HashNode(desc.name, val);
      ok := AddNode(node1);
      if ok && Upper(desc.name) != Upper(desc.commandLineOption) {
        var node2 := new HashNode(desc.commandLineOption, val);
        ok := AddNode(node2);
      }
    }

    // ----- Reading and changing options -----

    /** Option_get_value: the value in force and its origin, under either name and in either case. */
    method GetValue(name: Name) returns (known: bool, text: Text, origin: Origin)
      requires Valid() && |name| < 0x8000_0000
      ensures known <==> Upper(name) in contents
      ensures known ==> text == contents[Upper(name)].setting.text && origin == contents[Upper(name)].setting.origin
      ensures !known ==> text == NoText
    {
      hide Hash, Upper, Valid;
      var np := GetNode(name);
      if np == null { return false, NoText, INIT; }
      known, text, origin := true, np.value.setting.text, np.value.setting.origin;
    }

    /** Creates an option without a description. */
    method Create(name: Name, setting: Setting) returns (vp: HashValue)
      requires Valid() && |name| < 0x8000_0000 && Upper(name) !in contents
      modifies this`chains, this`nodes, this`contents, buckets
      ensures Valid() && fresh(vp) && fresh(nodes - old(nodes)) && contents == old(contents)[Upper(name) := vp]
      ensures vp.Settled() && vp.setting == setting && vp.history == [setting] && forall o: Origin :: o != INIT ==> o in vp.allowed
    {
      hide Hash, Upper, Valid;
      vp := new HashValue(setting, {MAP, DEFAULTS, COMMAND, PASSWORD});
      var node := new HashNode(name, vp);
      var ix := HashString(name);
      Push(node, ix);
    }

    lemma ValuesWith(before: map<Name, HashValue>, key: Name, v: HashValue)
      requires contents == before[key := v] && key !in before
      ensures Values() == (set k | k in before :: before[k]) + {v}
    {
      forall u | u in (set k | k in before :: before[k]) + {v} ensures u in Values() {
        if u == v {
          assert contents[key] == u;
        } else {
          var k :| k in before && before[k] == u;
          assert contents[k] == u;
        }
      }
    }

    /** Option_set_value: a known option is changed if the rules say so, whichever of its names is used; an unknown
        one is created, unless there is no value.  No other option changes. */
    method SetValue(name: Name, text: Text, force: bool, origin: Origin)
      requires Valid() && AllSettled() && |name| < 0x8000_0000 && origin != INIT
      modifies this`chains, this`nodes, this`contents, buckets, Values()
      ensures Valid() && AllSettled() && fresh(nodes - old(nodes))
      ensures Upper(name) in old(contents) ==>
                var v := old(contents[Upper(name)]);
                contents == old(contents)
                && v.history == if origin in v.allowed then old(v.history) + [Setting(text, force, origin)] else old(v.history)
      ensures Upper(name) !in old(contents) && text == NoText ==> contents == old(contents)
      ensures Upper(name) !in old(contents) && text != NoText ==>
                Upper(name) in contents && fresh(contents[Upper(name)]) && contents == old(contents)[Upper(name) := contents[Upper(name)]]
                && contents[Upper(name)].setting == Setting(text, force, origin)
                && forall o: Origin :: o != INIT ==> o in contents[Upper(name)].allowed
      ensures forall v :: v in old(Values()) && !(Upper(name) in old(contents) && v == old(contents)[Upper(name)]) ==>
                v.setting == old(v.setting) && v.history == old(v.history)
    {
      hide Hash, Upper, Valid, HashValue.Settled;
      var np := GetNode(name);
      if np != null {
        assert np.value in Values();
        np.value.Change(Setting(text, force, origin));
        return;
      }
      if text == NoText { return; }
      ghost var before := contents;
      var vp := Create(name, Setting(text, force, origin));
      ValuesWith(before, Upper(name), vp);
    }
  }
}
