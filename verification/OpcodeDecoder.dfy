/** The decoder object: the instruction table and the opcode cache, both updated in place. */
module OpcodeDecoder {
  import opened Opcode

  class Decoder {
    const instructions: array<Desc>
    const opcodeCache: array<Desc>
    const wide: bool

    function Contents(): State reads instructions, opcodeCache { State(instructions[..], opcodeCache[..]) }

    ghost predicate Valid() reads instructions, opcodeCache { Shape(Contents()) && instructions != opcodeCache }

    /** The state after build_opcode_map; how the table gets sorted is not modelled. */
    constructor (table: seq<Desc>, illegal: nat, wide: bool)
      requires Closed(table) && Sorted(table) && table[|table| - 1] == Desc(0, 0, illegal, illegal)
      ensures fresh(instructions) && fresh(opcodeCache) && this.wide == wide && Valid() && Contents().table == table &&
        Initial(Contents())
    {
      instructions := new Desc[|table|](i requires 0 <= i < |table| => table[i]);
      opcodeCache := new Desc[CACHE_SIZE](_ => Desc(0, 0, illegal, illegal));
      this.wide := wide;
      new;
      assert instructions[..] == table;
    }

    /** Shifts everything before the hit back by one place and puts the hit in front. */
    method MoveToFront(q: nat)
      requires Valid() && q < instructions.Length
      modifies instructions
      ensures instructions[..] == ToFront(old(instructions[..]), q)
    {
      var desc := instructions[q];
      var p: int := q - 1;
      while p >= 0
        invariant -1 <= p < q
        invariant forall i :: p + 1 < i <= q ==> instructions[i] == old(instructions[i - 1])
        invariant forall i :: 0 <= i <= p + 1 || q < i < instructions.Length ==> instructions[i] == old(instructions[i])
      {
        instructions[p + 1] := instructions[p];
        p := p - 1;
      }
      instructions[0] := desc;
      assert instructions[..] == ToFront(old(instructions[..]), q);
    }

    /** The handler for instruction word w. */
    method DecodeInsn(w: Word) returns (handler: nat)
      requires Valid()
      modifies instructions, opcodeCache
      ensures Valid()
      ensures var (s, d) := Decode(old(Contents()), w); Contents() == s && handler == if wide then d.rv64 else d.rv32
    {
      var idx := Index(w);
      var desc := opcodeCache[idx];
      if w != desc.pattern {
        ghost var t := instructions[..];
        SearchEnds(t, w);
        var p := 0;
        while And(w, instructions[p].mask) != instructions[p].pattern
          invariant p < instructions.Length && FirstMatch(t, w, 0) == FirstMatch(t, w, p)
          decreases instructions.Length - p
        {
          p := p + 1;
        }
        desc := instructions[p];
        FrontClosed(t, p);
        if instructions[p].mask != 0 && p > 0 {
          if instructions[p].pattern != instructions[p - 1].pattern
             && instructions[p].pattern != instructions[p + 1].pattern {
            MoveToFront(p);
          }
        }
        opcodeCache[idx] := desc;
        opcodeCache[idx] := opcodeCache[idx].(pattern := w);
      }
      return if wide then desc.rv64 else desc.rv32;
    }
  }
}
