/**
 * The fake process table: four fixed processes, CPU loads redrawn on
 * every tick, and at most one newcomer per tick while the table holds
 * fewer than six.
 */
module GhostProcesses {
  import opened JsMath

  /** A CPU load: a percentage, or the `'∞'` of the phantom process. */
  datatype Cpu = Num(n: int) | Infinite

  datatype Process = Process(pid: int, name: string, cpu: Cpu)

  /** The random draws one spawn attempt uses, in the order it makes them. */
  datatype SpawnDraws = SpawnDraws(chance: real, name: real, pid: real, cpu: real)

  /** The table grows only while it is shorter than this. */
  const MaxProcesses: nat := 6

  /** A tick spawns when its draw falls below this. */
  const SpawnChance: real := 0.3

  /** Pid draws are scaled by this. */
  const PidRange: nat := 9999

  const GhostNames: seq<string> := ["wraith.exe", "banshee.dll", "poltergeist.sys", "shadow.bat"]

  const InitialPids: seq<int> := [666, 999, 404, 1337]
  const InitialNames: seq<string> := ["spectral.exe", "phantom.dll", "soul.sys", "haunt.bat"]

  predicate ValidDraws(d: SpawnDraws) {
    IsDraw(d.chance) && IsDraw(d.name) && IsDraw(d.pid) && IsDraw(d.cpu)
  }

  predicate AllDraws(loads: seq<real>) {
    forall i :: 0 <= i < |loads| ==> IsDraw(loads[i])
  }

  /** `Math.floor(Math.random() * 100)`: a load in percent. */
  function Load(draw: real): (n: int)
    requires IsDraw(draw)
    ensures 0 <= n < 100
  {
    RandomBelow(draw, 100)
  }

  /** The table the controller starts with, given its two load draws. */
  function InitialTable(spectral: real, haunt: real): (ps: seq<Process>)
    requires IsDraw(spectral) && IsDraw(haunt)
    ensures Table(ps) && |ps| == 4
    ensures ps[3].cpu.n < 50
  {
    [ Process(666, "spectral.exe", Num(Load(spectral))),
      Process(999, "phantom.dll", Infinite),
      Process(404, "soul.sys", Num(0)),
      Process(1337, "haunt.bat", Num(RandomBelow(haunt, 50))) ]
  }

  /**
   * What holds of the table at all times: four to six rows, the four
   * initial processes first, `'∞'` on the phantom row and nowhere else,
   * and every numeric load a percentage below 100.
   */
  ghost predicate Table(ps: seq<Process>) {
    4 <= |ps| <= MaxProcesses &&
    (forall i :: 0 <= i < 4 ==> ps[i].pid == InitialPids[i] && ps[i].name == InitialNames[i]) &&
    (forall i :: 0 <= i < |ps| ==> (ps[i].cpu.Infinite? <==> i == 1)) &&
    (forall i :: 0 <= i < |ps| && ps[i].cpu.Num? ==> 0 <= ps[i].cpu.n < 100)
  }

  /** One process after a tick: a numeric load is redrawn, anything else is kept. */
  function Tick(p: Process, draw: real): (q: Process)
    requires IsDraw(draw)
    ensures q.pid == p.pid && q.name == p.name
    ensures p.cpu.Infinite? ==> q == p
    ensures p.cpu.Num? ==> q.cpu.Num? && 0 <= q.cpu.n < 100
  {
    if p.cpu.Num? then p.(cpu := Num(Load(draw))) else p
  }

  /**
   * The table after every row is ticked, row `i` with draw `loads[i]`:
   * same rows in the same order, only numeric loads change.
   */
  function Retick(ps: seq<Process>, loads: seq<real>): (r: seq<Process>)
    requires |loads| == |ps| && AllDraws(loads)
    ensures |r| == |ps|
    ensures forall i :: 0 <= i < |ps| ==>
      r[i].pid == ps[i].pid && r[i].name == ps[i].name &&
      r[i].cpu.Infinite? == ps[i].cpu.Infinite? &&
      (ps[i].cpu.Infinite? ==> r[i] == ps[i]) &&
      (r[i].cpu.Num? ==> 0 <= r[i].cpu.n < 100)
  {
    seq(|ps|, i requires 0 <= i < |ps| => Tick(ps[i], loads[i]))
  }

  /** The process a successful spawn draw builds. */
  function Newcomer(d: SpawnDraws): (p: Process)
    requires ValidDraws(d)
    ensures p.name in GhostNames
    ensures 0 <= p.pid < PidRange
    ensures p.cpu.Num? && 0 <= p.cpu.n < 100
  {
    Process(RandomBelow(d.pid, PidRange), GhostNames[RandomBelow(d.name, |GhostNames|)], Num(Load(d.cpu)))
  }

  /**
   * A spawn attempt: the table grows by the newcomer exactly when the
   * chance draw is below `SpawnChance` and the table is shorter than
   * `MaxProcesses`; otherwise it is unchanged. Rows are never removed.
   */
  function Spawn(ps: seq<Process>, d: SpawnDraws): (r: seq<Process>)
    requires ValidDraws(d)
    ensures |r| == |ps| || |r| == |ps| + 1
    ensures r[..|ps|] == ps
    ensures |r| == |ps| + 1 <==> d.chance < SpawnChance && |ps| < MaxProcesses
    ensures |r| == |ps| + 1 ==> r[|ps|] == Newcomer(d)
  {
    if d.chance < SpawnChance then
      var p := Newcomer(d);
      if |ps| < MaxProcesses then ps + [p] else ps
    else ps
  }

  /** A tick keeps the table's invariant: it never exceeds six rows. */
  lemma TickKeepsTable(ps: seq<Process>, loads: seq<real>, d: SpawnDraws)
    requires Table(ps) && |loads| == |ps| && AllDraws(loads) && ValidDraws(d)
    ensures Table(Spawn(Retick(ps, loads), d))
  {
    var t := Retick(ps, loads);
    var r := Spawn(t, d);
    assert forall i :: 0 <= i < |t| ==> r[i] == t[i] by {
      assert r[..|t|] == t;
    }
  }
}
