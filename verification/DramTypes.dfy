/** Data of the DRAM model: packets, bank states and the configuration with its derived delays. */
module DramTypes {

  /** The ways in which the simulator gives up and leaves the process. */
  datatype Fault =
    | IllegalCommand
    | IllegalPowerDown
    | IllegalPowerUp
    | CommandBusCollision
    | DataBusCollision
    | NoMatchingRead
    | QueueOverflow
    | NotData

  datatype Result<+T> = Ok(value: T) | Exit(fault: Fault) {
    predicate IsFailure() { Exit? }
    function PropagateFailure<U>(): Result<U> requires Exit? { Exit(fault) }
    function Extract(): T requires Ok? { value }
  }

  datatype Kind = Read | ReadP | Write | WriteP | Activate | Precharge | Refresh | Data {
    predicate IsRead() { Read? || ReadP? }
    predicate IsWrite() { Write? || WriteP? }
    predicate IsColumn() { IsRead() || IsWrite() }
    predicate AutoPrecharges() { ReadP? || WriteP? }
  }

  datatype Packet = Packet(kind: Kind, addr: nat, column: nat, row: nat, rank: nat, bank: nat)

  datatype Mode = Idle | RowActive | Precharging | Refreshing | PowerDown

  datatype Bank = Bank(
    mode: Mode, openRow: nat, nextRead: nat, nextWrite: nat, nextActivate: nat,
    nextPrecharge: nat, nextPowerUp: nat, lastCommand: Kind, countdown: nat)

  /** All banks start precharged. */
  const FreshBank := Bank(Idle, 0, 0, 0, 0, 0, 0, Read, 0)

  /** A request as the address mapping has placed it. */
  datatype Transaction = Transaction(isRead: bool, addr: nat, rank: nat, bank: nat, row: nat, column: nat)

  function Max(a: int, b: int): int { if a > b then a else b }

  /** Decrement of a 32-bit unsigned counter. */
  function Dec32(x: nat): nat { if x == 0 then 0xFFFF_FFFF else x - 1 }

  datatype Config = Config(
    ranks: nat, banks: nat, CL: nat, AL: nat, BL: nat, tRAS: nat, tRCD: nat, tRRD: nat, tRC: nat,
    tRP: nat, tCCD: nat, tRTP: nat, tWTR: nat, tWR: nat, tRTRS: nat, tRFC: nat, tFAW: nat, tCKE: nat,
    tXP: nat, tCMD: nat, refreshCycles: nat, transQueueDepth: nat, cmdQueueDepth: nat,
    totalRowAccesses: nat, openPage: bool, perBank: bool, rankFirst: bool, lowPower: bool)
  {
    function RL(): int { CL + AL }
    function WL(): int { RL() - 1 }
    function Burst(): nat { BL / 2 }
    function ReadToPre(): int { AL + Burst() + Max(tRTP, tCCD) - tCCD }
    function WriteToPre(): int { WL() + Burst() + tWR }
    function ReadToWrite(): int { RL() + Burst() + tRTRS - WL() }
    function ReadAutoPre(): int { AL + tRTP + tRP }
    function WriteAutoPre(): int { WL() + Burst() + tWR + tRP }
    function WriteToReadSame(): int { WL() + Burst() + tWTR }
    function WriteToReadOther(): int { WL() + Burst() + tRTRS - RL() }
    function ColumnGap(): int { Max(tCCD, Burst()) }

    /** What the device files satisfy and the controller takes for granted. */
    predicate Sensible() {
      && ranks >= 1 && banks >= 1
      && tCMD == 1 && BL >= 2 && AL <= tRCD && CL + AL >= 2
      && tRP >= 1 && tRFC >= 1 && tFAW >= 1 && totalRowAccesses >= 1
      && ReadToPre() <= ReadAutoPre() && cmdQueueDepth < 0x1_0000_0000
    }

    /** Queues kept for one rank. */
    function QueuesPerRank(): nat { if perBank then banks else 1 }

    /** The column command a transaction becomes: rows close by themselves under the close-page policy. */
    function ColumnKind(isRead: bool): Kind {
      if openPage then (if isRead then Read else Write) else (if isRead then ReadP else WriteP)
    }
  }
}
