/** The command queue: which command goes next, and what the choice does to the queue. */
module DramQueue {
  import opened Wrappers
  import opened DramTypes
  import opened DramBank

  type Table = seq<seq<Bank>>

  datatype QueueState = QueueState(
    queues: seq<seq<seq<Packet>>>, rowAccess: seq<seq<nat>>, faw: seq<seq<nat>>,
    nextRank: nat, nextBank: nat, nextRankPRE: nat, nextBankPRE: nat,
    refreshRank: int, refreshWaiting: bool, sendAct: bool)

  predicate TableShape(c: Config, t: Table) {
    |t| == c.ranks && forall r :: 0 <= r < |t| ==> |t[r]| == c.banks
  }

  /** Packets of a queue belong to it. */
  predicate Belongs(c: Config, p: Packet, r: nat, k: nat) {
    && p.rank == r && r < c.ranks && p.bank < c.banks
    && (c.perBank ==> p.bank == k)
    && (p.kind.Activate? || p.kind == c.ColumnKind(true) || p.kind == c.ColumnKind(false))
  }

  predicate LineShape(c: Config, line: seq<Packet>, r: nat, k: nat) {
    forall i :: 0 <= i < |line| ==> Belongs(c, line[i], r, k)
  }

  /** The queue's vectors have the lengths its loops count on, and its indices stay inside them. */
  predicate QueueShape(c: Config, q: QueueState) {
    && |q.queues| == |q.rowAccess| == |q.faw| == c.ranks
    && (forall r :: 0 <= r < c.ranks ==> |q.queues[r]| >= c.QueuesPerRank())
    && (forall r, k :: 0 <= r < c.ranks && 0 <= k < |q.queues[r]| ==> LineShape(c, q.queues[r][k], r, k))
    && (forall r :: 0 <= r < c.ranks ==> |q.rowAccess[r]| == c.banks)
    && q.nextRank < c.ranks && q.nextBank < c.banks && q.nextRankPRE < c.ranks && q.nextBankPRE < c.banks
    && (q.refreshWaiting ==> 0 <= q.refreshRank < c.ranks)
  }

  /** Where the packets for a bank are kept. */
  function Slot(c: Config, b: nat): nat { if c.perBank then b else 0 }

  function Line(c: Config, q: QueueState, r: nat, b: nat): (line: seq<Packet>)
    requires c.Sensible() && QueueShape(c, q) && r < c.ranks && b < c.banks
    ensures LineShape(c, line, r, Slot(c, b))
  {
    q.queues[r][Slot(c, b)]
  }

  function SetLine(c: Config, q: QueueState, r: nat, b: nat, line: seq<Packet>): QueueState
    requires c.Sensible() && QueueShape(c, q) && r < c.ranks && b < c.banks
  {
    q.(queues := Put(q.queues, r, Slot(c, b), line))
  }

  function Put<T>(s: seq<seq<T>>, i: nat, j: nat, x: T): (r: seq<seq<T>>)
    requires i < |s| && j < |s[i]|
    ensures |r| == |s| && |r[i]| == |s[i]| && r[i][j] == x
    ensures forall k :: 0 <= k < |s| && k != i ==> r[k] == s[k]
    ensures forall k :: 0 <= k < |s[i]| && k != j ==> r[i][k] == s[i][k]
  {
    s[i := s[i][j := x]]
  }

  function SetRowAccess(c: Config, q: QueueState, r: nat, b: nat, n: nat): QueueState
    requires QueueShape(c, q) && r < c.ranks && b < c.banks
  {
    q.(rowAccess := Put(q.rowAccess, r, b, n))
  }

  /** Whether a queued packet may be issued now. */
  predicate Issuable(c: Config, q: QueueState, t: Table, p: Packet, now: nat)
    requires QueueShape(c, q) && TableShape(c, t) && p.rank < c.ranks && p.bank < c.banks
  {
    var m := t[p.rank][p.bank];
    if p.kind.Activate? then
      (m.mode.Idle? || m.mode.Refreshing?) && now >= m.nextActivate && |q.faw[p.rank]| < 4
    else if p.kind.IsWrite() then
      && m.mode.RowActive? && now >= m.nextWrite && p.row == m.openRow
      && q.rowAccess[p.rank][p.bank] < c.totalRowAccesses
    else if p.kind.IsRead() then
      && m.mode.RowActive? && now >= m.nextRead && p.row == m.openRow
      && q.rowAccess[p.rank][p.bank] < c.totalRowAccesses
    else p.kind.Precharge? && m.mode.RowActive? && now >= m.nextPrecharge
  }

  /** An earlier column access to the same row holds packet i back under the open-page policy. */
  predicate Depends(line: seq<Packet>, i: nat)
    requires i < |line|
  {
    exists j :: 0 <= j < i && !line[j].kind.Activate? && line[j].bank == line[i].bank && line[j].row == line[i].row
  }

  /** Packet i of a queue may be taken out now. */
  predicate Eligible(c: Config, q: QueueState, t: Table, line: seq<Packet>, i: nat, now: nat)
    requires QueueShape(c, q) && TableShape(c, t) && i < |line|
    requires line[i].rank < c.ranks && line[i].bank < c.banks
  {
    && Issuable(c, q, t, line[i], now)
    && if c.openPage then !Depends(line, i)
       else if c.perBank then i == 0
       else !(i > 0 && line[i - 1].kind.Activate? && line[i - 1].addr == line[i].addr)
  }

  /** The first packet from i on that may be taken out, or the end of the queue. */
  function FirstEligible(c: Config, q: QueueState, t: Table, line: seq<Packet>, r: nat, k: nat, i: nat,
      now: nat): (n: nat)
    requires QueueShape(c, q) && TableShape(c, t) && r < c.ranks && LineShape(c, line, r, k) && i <= |line|
    ensures i <= n <= |line|
    ensures n < |line| ==> Belongs(c, line[n], r, k) && Eligible(c, q, t, line, n, now)
    ensures forall j :: i <= j < n ==> Belongs(c, line[j], r, k) && !Eligible(c, q, t, line, j, now)
    decreases |line| - i
  {
    if i == |line| then i
    else
      assert Belongs(c, line[i], r, k);
      if Eligible(c, q, t, line, i, now) then i
      else FirstEligible(c, q, t, line, r, k, i + 1, now)
  }

  // ---- round robin ----

  function NextRankAndBank(c: Config, r: nat, b: nat): (n: (nat, nat))
    requires r < c.ranks && b < c.banks
    ensures n.0 < c.ranks && n.1 < c.banks
  {
    if c.rankFirst then
      if r + 1 == c.ranks then (0, if b + 1 == c.banks then 0 else b + 1) else (r + 1, b)
    else
      if b + 1 == c.banks then (if r + 1 == c.ranks then 0 else r + 1, 0) else (r, b + 1)
  }

  /** The next queue to look at: ranks only, when there is one queue for each rank. */
  function NextQueue(c: Config, r: nat, b: nat): (n: (nat, nat))
    requires r < c.ranks && b < c.banks
    ensures n.0 < c.ranks && n.1 < c.banks
  {
    if c.perBank then NextRankAndBank(c, r, b)
    else (if r + 1 == c.ranks then 0 else r + 1, b)
  }

  /** How often the slower index still has to move before the walk is back at (major0, minor0). */
  function Laps(major: nat, minor: nat, major0: nat, minor0: nat, n: nat): nat
    requires major < n && major0 < n
  {
    if major > major0 || (major == major0 && minor >= minor0) then major0 + n - major else major0 - major
  }

  function PairLaps(c: Config, r: nat, b: nat, r0: nat, b0: nat): nat
    requires r < c.ranks && b < c.banks && r0 < c.ranks && b0 < c.banks
  {
    if c.rankFirst then Laps(b, r, b0, r0, c.banks) else Laps(r, b, r0, b0, c.ranks)
  }

  function PairRest(c: Config, r: nat, b: nat): nat
    requires r < c.ranks && b < c.banks
  {
    if c.rankFirst then c.ranks - r else c.banks - b
  }

  function QueueLaps(c: Config, r: nat, b: nat, r0: nat, b0: nat): nat
    requires r < c.ranks && b < c.banks && r0 < c.ranks && b0 < c.banks
  {
    if c.perBank then PairLaps(c, r, b, r0, b0) else Laps(r, 0, r0, 0, c.ranks)
  }

  /** The walk over the queues gets nearer to its end with every move. */
  lemma QueueWalk(c: Config, r: nat, b: nat, r0: nat, b0: nat)
    requires r < c.ranks && b < c.banks && r0 < c.ranks && b0 < c.banks && (!c.perBank ==> b == b0)
    ensures var n := NextQueue(c, r, b); n != (r0, b0) ==>
      && (!c.perBank ==> n.1 == b0)
      && (QueueLaps(c, n.0, n.1, r0, b0) < QueueLaps(c, r, b, r0, b0)
          || (QueueLaps(c, n.0, n.1, r0, b0) == QueueLaps(c, r, b, r0, b0) &&
              PairRest(c, n.0, n.1) < PairRest(c, r, b)))
  {
  }

  datatype Pick =
    | Nothing
    | FromQueue(rank: nat, bank: nat, index: nat)   // the round robin search
    | LastColumn(bank: nat, index: nat)             // a column access to finish before a refresh
    | CloseForRefresh(bank: nat)                    // a row to close before a refresh
    | CloseRow(rank: nat, bank: nat)                // a row nobody waits for
    | SendRefresh

  /** Round robin over the queues, skipping a rank that waits for its refresh. */
  function ScanQueues(c: Config, q: QueueState, t: Table, r: nat, b: nat, r0: nat, b0: nat, now: nat): (pick: Pick)
    requires c.Sensible() && QueueShape(c, q) && TableShape(c, t)
    requires r < c.ranks && b < c.banks && r0 < c.ranks && b0 < c.banks && (!c.perBank ==> b == b0)
    ensures pick.Nothing? || pick.FromQueue?
    ensures pick.FromQueue? ==>
      && pick.rank < c.ranks && pick.bank < c.banks && !(pick.rank == q.refreshRank && q.refreshWaiting)
      && var line := Line(c, q, pick.rank, pick.bank);
         && pick.index < |line| && Belongs(c, line[pick.index], pick.rank, Slot(c, pick.bank))
         && pick.index == FirstEligible(c, q, t, line, pick.rank, Slot(c, pick.bank), 0, now)
    decreases QueueLaps(c, r, b, r0, b0), PairRest(c, r, b)
  {
    var line := Line(c, q, r, b);
    var i := if r == q.refreshRank && q.refreshWaiting then |line|
             else FirstEligible(c, q, t, line, r, Slot(c, b), 0, now);
    if i < |line| then FromQueue(r, b, i)
    else
      QueueWalk(c, r, b, r0, b0);
      var n := NextQueue(c, r, b);
      if n == (r0, b0) then Nothing else ScanQueues(c, q, t, n.0, n.1, r0, b0, now)
  }

  // ---- closing rows ----

  /** The first packet from i on that goes to the open row of bank b, or the end of the queue. */
  function FirstToRow(line: seq<Packet>, b: nat, row: nat, i: nat): (n: nat)
    requires i <= |line|
    ensures i <= n <= |line|
    ensures n < |line| ==> line[n].bank == b && line[n].row == row
    ensures forall j :: i <= j < n ==> !(line[j].bank == b && line[j].row == row)
    decreases |line| - i
  {
    if i == |line| || (line[i].bank == b && line[i].row == row) then i else FirstToRow(line, b, row, i + 1)
  }

  /** Nobody waits for the open row of bank b of rank r, or it has been used often enough. */
  predicate Closable(c: Config, q: QueueState, t: Table, r: nat, b: nat, now: nat)
    requires c.Sensible() && QueueShape(c, q) && TableShape(c, t) && r < c.ranks && b < c.banks
  {
    && t[r][b].mode.RowActive?
    && (|| FirstToRow(Line(c, q, r, b), b, t[r][b].openRow, 0) == |Line(c, q, r, b)|
        || q.rowAccess[r][b] == c.totalRowAccesses)
    && now >= t[r][b].nextPrecharge
  }

  /** Round robin over the banks for a row to close. */
  function ScanRows(c: Config, q: QueueState, t: Table, r: nat, b: nat, r0: nat, b0: nat, now: nat): (pick: Pick)
    requires c.Sensible() && QueueShape(c, q) && TableShape(c, t)
    requires r < c.ranks && b < c.banks && r0 < c.ranks && b0 < c.banks
    ensures pick.Nothing? || pick.CloseRow?
    ensures pick.CloseRow? ==>
      pick.rank < c.ranks && pick.bank < c.banks && Closable(c, q, t, pick.rank, pick.bank, now)
    decreases PairLaps(c, r, b, r0, b0), PairRest(c, r, b)
  {
    if Closable(c, q, t, r, b, now) then CloseRow(r, b)
    else
      var n := NextRankAndBank(c, r, b);
      if n == (r0, b0) then Nothing else ScanRows(c, q, t, n.0, n.1, r0, b0, now)
  }

  /** What bank b of the rank that waits for a refresh allows. */
  function RefreshBank(c: Config, q: QueueState, t: Table, b: nat, now: nat): (pick: Pick)
    requires c.Sensible() && QueueShape(c, q) && TableShape(c, t) && q.refreshWaiting && b < c.banks
    requires t[q.refreshRank][b].mode.RowActive?
  {
    var m := t[q.refreshRank][b];
    var line := Line(c, q, q.refreshRank, b);
    var j := FirstToRow(line, b, m.openRow, 0);
    if j < |line| && !line[j].kind.Activate? then
      assert Belongs(c, line[j], q.refreshRank, Slot(c, b));
      if Issuable(c, q, t, line[j], now) then LastColumn(b, j) else Nothing
    else if c.openPage && now >= m.nextPrecharge then CloseForRefresh(b)
    else Nothing
  }

  /** Looks at the banks of the waiting rank from b on; all idle and ready means the refresh can go. */
  function ScanForRefresh(c: Config, q: QueueState, t: Table, b: nat, now: nat): (pick: Pick)
    requires c.Sensible() && QueueShape(c, q) && TableShape(c, t) && q.refreshWaiting && b <= c.banks
    ensures pick.LastColumn? || pick.CloseForRefresh? || pick.SendRefresh? || pick.Nothing?
    ensures pick.LastColumn? || pick.CloseForRefresh? ==>
      pick.bank < c.banks && t[q.refreshRank][pick.bank].mode.RowActive? && pick == RefreshBank(c, q, t, pick.bank, now)
    ensures pick.SendRefresh? ==> !t[q.refreshRank][0].mode.PowerDown? && forall j :: b <= j < c.banks ==>
      !t[q.refreshRank][j].mode.RowActive? && t[q.refreshRank][j].nextActivate <= now
    decreases c.banks - b
  {
    if b == c.banks then (if t[q.refreshRank][0].mode.PowerDown? then Nothing else SendRefresh)
    else if t[q.refreshRank][b].mode.RowActive? then RefreshBank(c, q, t, b, now)
    else if t[q.refreshRank][b].nextActivate > now then Nothing
    else ScanForRefresh(c, q, t, b + 1, now)
  }

  // ---- the choice and its effect ----

  /** The command that goes next: first what a waiting refresh needs, then queued packets, then rows to close. */
  function Choose(c: Config, q: QueueState, t: Table, now: nat): Pick
    requires c.Sensible() && QueueShape(c, q) && TableShape(c, t)
  {
    var forRefresh := if q.refreshWaiting then ScanForRefresh(c, q, t, 0, now) else Nothing;
    if !forRefresh.Nothing? then forRefresh
    else
      var queued := ScanQueues(c, q, t, q.nextRank, q.nextBank, q.nextRank, q.nextBank, now);
      if !queued.Nothing? || !c.openPage then queued
      else ScanRows(c, q, t, q.nextRankPRE, q.nextBankPRE, q.nextRankPRE, q.nextBankPRE, now)
  }

  function Without(line: seq<Packet>, i: nat): seq<Packet>
    requires i < |line|
  {
    line[..i] + line[i + 1..]
  }

  /** A column access leaves together with the activate in front of it, whose row is open already. */
  predicate TakesActivate(c: Config, line: seq<Packet>, i: nat)
    requires i < |line|
  {
    c.openPage && i > 0 && line[i - 1].kind.Activate?
  }

  /** Takes packet i out of the queue found by the round robin search. */
  function Take(c: Config, q: QueueState, r: nat, b: nat, i: nat): QueueState
    requires c.Sensible() && QueueShape(c, q) && r < c.ranks && b < c.banks && i < |Line(c, q, r, b)|
  {
    var line := Line(c, q, r, b);
    assert Belongs(c, line[i], r, Slot(c, b));
    var q1 := q.(nextRank := r, nextBank := b);
    if TakesActivate(c, line, i) then
      SetRowAccess(c, SetLine(c, q1, r, b, line[..i - 1] + line[i + 1..]), line[i].rank, line[i].bank,
        q.rowAccess[line[i].rank][line[i].bank] + 1)
    else SetLine(c, q1, r, b, Without(line, i))
  }

  predicate Valid(c: Config, q: QueueState, pick: Pick)
    requires c.Sensible() && QueueShape(c, q)
  {
    match pick
    case Nothing => false
    case FromQueue(r, b, i) => r < c.ranks && b < c.banks && i < |Line(c, q, r, b)|
    case LastColumn(b, i) => q.refreshWaiting && b < c.banks && i < |Line(c, q, q.refreshRank, b)|
    case CloseForRefresh(b) => q.refreshWaiting && b < c.banks
    case CloseRow(r, b) => r < c.ranks && b < c.banks
    case SendRefresh => q.refreshWaiting
  }

  function Chosen(c: Config, q: QueueState, pick: Pick): Packet
    requires c.Sensible() && QueueShape(c, q) && Valid(c, q, pick)
  {
    match pick
    case FromQueue(r, b, i) => Line(c, q, r, b)[i]
    case LastColumn(b, i) => Line(c, q, q.refreshRank, b)[i]
    case CloseForRefresh(b) => Packet(Precharge, 0, 0, 0, q.refreshRank, b)
    case CloseRow(r, b) => Packet(Precharge, 0, 0, 0, r, b)
    case SendRefresh => Packet(Refresh, 0, 0, 0, q.refreshRank, 0)
  }

  function Remove(c: Config, q: QueueState, pick: Pick): QueueState
    requires c.Sensible() && QueueShape(c, q) && Valid(c, q, pick)
  {
    match pick
    case FromQueue(r, b, i) => Take(c, q, r, b, i)
    case LastColumn(b, i) => SetLine(c, q, q.refreshRank, b, Without(Line(c, q, q.refreshRank, b), i))
    case CloseForRefresh(b) => SetRowAccess(c, q, q.refreshRank, b, 0)
    case CloseRow(r, b) => SetRowAccess(c, q.(nextRankPRE := r, nextBankPRE := b), r, b, 0)
    case SendRefresh => q.(refreshRank := -1, refreshWaiting := false)
  }

  /** Round-robin bookkeeping and the activate window, after a command has been chosen. */
  function Finish(c: Config, q: QueueState, p: Packet): QueueState
    requires q.nextRank < c.ranks && q.nextBank < c.banks && p.rank < |q.faw|
  {
    var n := NextRankAndBank(c, q.nextRank, q.nextBank);
    var q1 := if c.AL > 0 && q.sendAct then q.(sendAct := false)
              else q.(sendAct := true, nextRank := n.0, nextBank := n.1);
    if p.kind.Activate? then q1.(faw := q1.faw[p.rank := q1.faw[p.rank] + [c.tFAW]]) else q1
  }

  /** One cycle of one rank's activate window. */
  function Age(w: seq<nat>): seq<nat> {
    var w1 := seq(|w|, i requires 0 <= i < |w| => Dec32(w[i]));
    if |w1| > 0 && w1[0] == 0 then w1[1..] else w1
  }

  function AgeAll(faw: seq<seq<nat>>): (r: seq<seq<nat>>)
    ensures |r| == |faw| && forall i :: 0 <= i < |faw| ==> r[i] == Age(faw[i])
  {
    seq(|faw|, i requires 0 <= i < |faw| => Age(faw[i]))
  }

  /** Every choice points at something that is there. */
  lemma ChoiceValid(c: Config, q: QueueState, t: Table, now: nat)
    requires c.Sensible() && QueueShape(c, q) && TableShape(c, t) && !Choose(c, q, t, now).Nothing?
    ensures Valid(c, q, Choose(c, q, t, now))
  {
  }

  lemma SetLineKeepsShape(c: Config, q: QueueState, r: nat, b: nat, line: seq<Packet>)
    requires c.Sensible() && QueueShape(c, q) && r < c.ranks && b < c.banks && LineShape(c, line, r, Slot(c, b))
    ensures QueueShape(c, SetLine(c, q, r, b, line))
  {
    var q1 := SetLine(c, q, r, b, line);
    forall r1, k | 0 <= r1 < c.ranks && 0 <= k < |q1.queues[r1]| ensures LineShape(c, q1.queues[r1][k], r1, k) {
      if r1 == r && k == Slot(c, b) {
        assert q1.queues[r1][k] == line;
      } else {
        assert q1.queues[r1][k] == q.queues[r1][k];
      }
    }
  }

  lemma CutKeepsShape(c: Config, line: seq<Packet>, lo: nat, hi: nat, r: nat, k: nat)
    requires LineShape(c, line, r, k) && lo <= hi <= |line|
    ensures LineShape(c, line[..lo] + line[hi..], r, k)
  {
    var cut := line[..lo] + line[hi..];
    forall i | 0 <= i < |cut| ensures Belongs(c, cut[i], r, k) {
      assert cut[i] == if i < lo then line[i] else line[i - lo + hi];
    }
  }

  lemma TakeKeepsShape(c: Config, q: QueueState, r: nat, b: nat, i: nat)
    requires c.Sensible() && QueueShape(c, q) && r < c.ranks && b < c.banks && i < |Line(c, q, r, b)|
    ensures QueueShape(c, Take(c, q, r, b, i))
  {
    var line := Line(c, q, r, b);
    var q1 := q.(nextRank := r, nextBank := b);
    assert Belongs(c, line[i], r, Slot(c, b));
    if TakesActivate(c, line, i) {
      CutKeepsShape(c, line, i - 1, i + 1, r, Slot(c, b));
      SetLineKeepsShape(c, q1, r, b, line[..i - 1] + line[i + 1..]);
    } else {
      CutKeepsShape(c, line, i, i + 1, r, Slot(c, b));
      SetLineKeepsShape(c, q1, r, b, Without(line, i));
    }
  }

  /** Taking packets out keeps the queue well formed. */
  lemma RemoveKeepsShape(c: Config, q: QueueState, pick: Pick)
    requires c.Sensible() && QueueShape(c, q) && Valid(c, q, pick)
    ensures QueueShape(c, Remove(c, q, pick)) && Chosen(c, q, pick).rank < c.ranks
    ensures Remove(c, q, pick).faw == q.faw
  {
    match pick
    case FromQueue(r, b, i) =>
      assert Belongs(c, Line(c, q, r, b)[i], r, Slot(c, b));
      TakeKeepsShape(c, q, r, b, i);
    case LastColumn(b, i) =>
      assert Belongs(c, Line(c, q, q.refreshRank, b)[i], q.refreshRank, Slot(c, b));
      CutKeepsShape(c, Line(c, q, q.refreshRank, b), i, i + 1, q.refreshRank, Slot(c, b));
      SetLineKeepsShape(c, q, q.refreshRank, b, Without(Line(c, q, q.refreshRank, b), i));
    case CloseForRefresh(b) =>
    case CloseRow(r, b) =>
    case SendRefresh =>
  }

  lemma FinishKeepsShape(c: Config, q: QueueState, p: Packet)
    requires c.Sensible() && QueueShape(c, q) && p.rank < c.ranks
    ensures QueueShape(c, Finish(c, q, p))
  {
  }

  /** One call of pop: the queue afterwards and the command, if one can go. */
  function Pop(c: Config, q: QueueState, t: Table, now: nat): (r: (QueueState, Option<Packet>))
    requires c.Sensible() && QueueShape(c, q) && TableShape(c, t)
    ensures QueueShape(c, r.0) && (r.1.Some? ==> r.1.value.rank < c.ranks)
  {
    var q1 := q.(faw := AgeAll(q.faw));
    var pick := Choose(c, q1, t, now);
    if pick.Nothing? then (q1, None)
    else
      ChoiceValid(c, q1, t, now);
      RemoveKeepsShape(c, q1, pick);
      FinishKeepsShape(c, Remove(c, q1, pick), Chosen(c, q1, pick));
      (Finish(c, Remove(c, q1, pick), Chosen(c, q1, pick)), Some(Chosen(c, q1, pick)))
  }

  function HasRoom(c: Config, q: QueueState, n: nat, r: nat, b: nat): bool
    requires c.Sensible() && QueueShape(c, q) && r < c.ranks && b < c.banks
  {
    (c.cmdQueueDepth - |Line(c, q, r, b)|) % 0x1_0000_0000_0000_0000 >= n
  }

  function Enqueue(c: Config, q: QueueState, p: Packet): Result<QueueState>
    requires c.Sensible() && QueueShape(c, q) && p.rank < c.ranks && p.bank < c.banks
  {
    var line := Line(c, q, p.rank, p.bank) + [p];
    if |line| > c.cmdQueueDepth then Exit(QueueOverflow) else Ok(SetLine(c, q, p.rank, p.bank, line))
  }

  /** Rank r has nothing queued. */
  predicate Empty(c: Config, q: QueueState, r: nat)
    requires c.Sensible() && QueueShape(c, q) && r < c.ranks
  {
    forall k :: 0 <= k < c.QueuesPerRank() ==> q.queues[r][k] == []
  }

  /** The queue before anything is queued. */
  ghost predicate InitialQueue(c: Config, q: QueueState) {
    && QueueShape(c, q)
    && (forall r :: 0 <= r < c.ranks ==> |q.queues[r]| == (r + 1) * c.QueuesPerRank())
    && (forall r, k :: 0 <= r < c.ranks && 0 <= k < |q.queues[r]| ==> q.queues[r][k] == [])
    && (forall r, b :: 0 <= r < c.ranks && 0 <= b < c.banks ==> q.rowAccess[r][b] == 0)
    && (forall r :: 0 <= r < c.ranks ==> q.faw[r] == [])
    && !q.refreshWaiting && q.sendAct
    && q.nextRank == q.nextBank == q.nextRankPRE == q.nextBankPRE == 0
  }
}
