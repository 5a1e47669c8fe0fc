/** The kinds of packets (Frames/DataFramesPackets.h). */
module Packets {
  import opened Bytes

  datatype PacketType = WithoutTicket | NeedsTicket | Ticket

  function TypeCode(t: PacketType): byte {
    match t
    case WithoutTicket => 0
    case NeedsTicket => 1
    case Ticket => 2
  }

  /** The type a code stands for; codes from MaximumValue on stand for none. */
  function TypeOf(code: byte): Option<PacketType> {
    if code == 0 then Some(WithoutTicket)
    else if code == 1 then Some(NeedsTicket)
    else if code == 2 then Some(Ticket)
    else None
  }
}
