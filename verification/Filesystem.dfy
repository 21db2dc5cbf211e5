/**
 A filesystem as the retention helper sees it: inodes, directories, and the system calls it makes.

 A directory keeps every view of its entries since it was last synced. The last one is what a
 running process sees; a crash may leave any of them on disk, and the first one is what the last
 `fsync` promised. Inode numbers are never given to a second inode.
 */
module Filesystem {
  import opened Outcomes

  type Name = string

  datatype Part = Manifest | Artifact

  /** What a pair of directory syncs makes durable. */
  datatype Phase = Creating | Capturing(part: Part) | Retaining

  /** The checkpoints of the helper. */
  datatype Step =
    | HandlesOpened(deleting: bool)
    | PreflightComplete
    | BeforeDelete
    | BeforeSync(phase: Phase, ofRoot: bool)
    | Synced(phase: Phase, ofRoot: bool)
    | MadeDurable(phase: Phase)
    | BeforeCapture(part: Part)
    | Captured(part: Part)
    | BeforeBarrier
    | BarrierComplete
    | Reclaimed(part: Part)

  type View = map<Name, NodeId>

  datatype NodeId = NodeId(dev: int, ino: int)

  datatype Kind = Regular | Directory | Other

  datatype Inode = Inode(kind: Kind, perm: nat, data: seq<int>, mtime: int, ctime: int,
                         uid: int, gid: int, nlink: int)

  /** The nine fields that an identity record pins, in the order in which it lists them. */
  datatype Identity = Identity(dev: int, ino: int, size: int, mtime: int, ctime: int, mode: int,
                               uid: int, gid: int, nlink: int)

  datatype Stat = Stat(kind: Kind, perm: nat, identity: Identity)

  /** `top` is the inode that the absolute path of the backup root names. */
  datatype Disk = Disk(nodes: map<NodeId, Inode>, dirs: map<NodeId, seq<View>>, top: Option<NodeId>)

  const PRIVATE_MODE: nat := 448 // 0o700

  function TypeBits(kind: Kind): int {
    match kind
    case Regular => 0x8000
    case Directory => 0x4000
    case Other => 0xA000
  }

  function StatOf(id: NodeId, node: Inode): Stat {
    Stat(node.kind, node.perm,
         Identity(id.dev, id.ino, |node.data|, node.mtime, node.ctime, TypeBits(node.kind) + node.perm,
                  node.uid, node.gid, node.nlink))
  }

  function StatNode(d: Disk, id: NodeId): Option<Stat> {
    if id in d.nodes then Some(StatOf(id, d.nodes[id])) else None
  }

  predicate IsDir(d: Disk, dir: NodeId) {
    dir in d.dirs && d.dirs[dir] != []
  }

  /** What a running process finds in a directory. */
  function Live(d: Disk, dir: NodeId): View {
    if IsDir(d, dir) then d.dirs[dir][|d.dirs[dir]| - 1] else map[]
  }

  /** What the last sync of a directory put on disk. */
  function Durable(d: Disk, dir: NodeId): View {
    if IsDir(d, dir) then d.dirs[dir][0] else map[]
  }

  function StatAt(d: Disk, dir: NodeId, name: Name): Option<Stat> {
    if name in Live(d, dir) then StatNode(d, Live(d, dir)[name]) else None
  }

  /** The steps that a trace records; every one but `Interference` is the helper's own. */
  datatype Call =
    | Interference
    | OpenRoot(node: NodeId)
    | Open(dir: NodeId, name: Name, node: NodeId)
    | Fstat(node: NodeId, stat: Stat)
    | PathStat(dir: NodeId, name: Name, found: Option<Stat>)
    | RootStat(found: Option<Stat>)
    | List(dir: NodeId)
    | Mkdir(dir: NodeId, name: Name, node: NodeId, perm: nat, uid: int, time: int)
    | Chmod(node: NodeId, perm: nat, time: int)
    | Rename(dir: NodeId, name: Name, destination: NodeId, newName: Name, time: int)
    | Fsync(node: NodeId)
    | Truncate(node: NodeId, time: int)
    | Checkpoint(step: Step, record: Name)

  /** Adds one more view to a directory, with the new modification time on the directory itself. */
  function WithView(d: Disk, dir: NodeId, view: View, time: int): Disk
    requires IsDir(d, dir)
  {
    d.(dirs := d.dirs[dir := d.dirs[dir] + [view]],
       nodes := if dir in d.nodes then d.nodes[dir := d.nodes[dir].(mtime := time, ctime := time)] else d.nodes)
  }

  /** The calls that succeed: a no-replace rename needs a free destination, and so does `mkdir`. */
  predicate Enabled(call: Call, d: Disk) {
    match call
    case Interference => false
    case OpenRoot(node) => d.top == Some(node) && node in d.nodes && d.nodes[node].kind == Directory
    case Open(dir, name, node) => name in Live(d, dir) && Live(d, dir)[name] == node && node in d.nodes
    case Fstat(node, stat) => StatNode(d, node) == Some(stat)
    case PathStat(dir, name, found) => StatAt(d, dir, name) == found
    case RootStat(found) => found == if d.top.Some? then StatNode(d, d.top.value) else None
    case List(dir) => IsDir(d, dir)
    case Mkdir(dir, name, node, perm, uid, time) =>
      IsDir(d, dir) && name !in Live(d, dir) && node !in d.nodes && node !in d.dirs
    case Chmod(node, perm, time) => node in d.nodes
    case Rename(dir, name, destination, newName, time) =>
      && IsDir(d, dir) && IsDir(d, destination) && dir != destination
      && name in Live(d, dir) && Live(d, dir)[name] in d.nodes && newName !in Live(d, destination)
    case Fsync(node) => node in d.nodes
    case Truncate(node, time) => node in d.nodes && d.nodes[node].kind == Regular
    case Checkpoint(step, record) => true
  }

  /** What a successful call does to the disk. */
  function Apply(call: Call, d: Disk): Disk
    requires Enabled(call, d)
  {
    match call
    case Mkdir(dir, name, node, perm, uid, time) =>
      var linked := WithView(d, dir, Live(d, dir)[name := node], time);
      linked.(nodes := linked.nodes[node := Inode(Directory, perm, [], time, time, uid, 0, 2)],
              dirs := linked.dirs[node := [map[]]])
    case Chmod(node, perm, time) =>
      d.(nodes := d.nodes[node := d.nodes[node].(perm := perm, ctime := time)])
    case Rename(dir, name, destination, newName, time) =>
      var node := Live(d, dir)[name];
      var out := WithView(d, dir, Live(d, dir) - {name}, time);
      var moved := WithView(out, destination, Live(d, destination)[newName := node], time);
      moved.(nodes := moved.nodes[node := moved.nodes[node].(ctime := time)])
    case Fsync(node) =>
      if d.nodes[node].kind == Directory && IsDir(d, node) then d.(dirs := d.dirs[node := [Live(d, node)]]) else d
    case Truncate(node, time) =>
      d.(nodes := d.nodes[node := d.nodes[node].(data := [], mtime := time, ctime := time)])
    case _ => d
  }

  /** A name that some directory shows to a running process. */
  ghost predicate Linked(d: Disk, node: NodeId) {
    exists dir, name :: Names(d, dir, name, node)
  }

  predicate Names(d: Disk, dir: NodeId, name: Name, node: NodeId) {
    name in Live(d, dir) && Live(d, dir)[name] == node
  }

  predicate SameBytes(before: Disk, after: Disk, node: NodeId) {
    node in before.nodes ==> node in after.nodes && after.nodes[node].data == before.nodes[node].data
  }

  /** A name is kept, or the very call moved it to a name that was free. */
  predicate NameKept(call: Call, before: Disk, after: Disk, dir: NodeId, name: Name)
    requires name in Live(before, dir)
  {
    var node := Live(before, dir)[name];
    || Names(after, dir, name, node)
    || (&& call.Rename? && call.dir == dir && call.name == name
        && call.newName !in Live(before, call.destination)
        && Names(after, call.destination, call.newName, node))
  }

  /**
   No call of the helper unlinks or overwrites a name, none makes an inode disappear, and only a
   truncation changes bytes, those of its own inode.
   */
  lemma CallsAreGentle(call: Call, d: Disk)
    requires Enabled(call, d)
    ensures d.nodes.Keys <= Apply(call, d).nodes.Keys
    ensures forall dir, name :: name in Live(d, dir) ==> NameKept(call, d, Apply(call, d), dir, name)
    ensures forall node :: Linked(d, node) ==> Linked(Apply(call, d), node)
    ensures forall node :: !(call.Truncate? && call.node == node) ==> SameBytes(d, Apply(call, d), node)
  {
    var after := Apply(call, d);
    forall dir, name | name in Live(d, dir)
      ensures NameKept(call, d, after, dir, name)
    {
      LiveAfter(call, d, dir);
    }
    forall node | Linked(d, node)
      ensures Linked(after, node)
    {
      var dir, name :| Names(d, dir, name, node);
      assert NameKept(call, d, after, dir, name);
    }
  }

  /** How one directory looks after a call. */
  lemma LiveAfter(call: Call, d: Disk, dir: NodeId)
    requires Enabled(call, d) && IsDir(d, dir)
    ensures IsDir(Apply(call, d), dir)
    ensures Live(Apply(call, d), dir) ==
            if call.Mkdir? && call.dir == dir then Live(d, dir)[call.name := call.node]
            else if call.Rename? && call.dir == dir then Live(d, dir) - {call.name}
            else if call.Rename? && call.destination == dir
            then Live(d, dir)[call.newName := Live(d, call.dir)[call.name]]
            else Live(d, dir)
  {
  }
}
