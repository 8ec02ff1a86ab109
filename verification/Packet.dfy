/** The SpaceCoMP message format: a four-byte header (operation, reserved, job in network order)
    and a payload. */
module Packet {
  import opened Words
  import opened Bytes

  datatype OpCode = SubmitJob | AssignCollector | AssignMapper | AssignReducer | PhaseDone | JobResult | DataChunk

  function Code(op: OpCode): u8 {
    match op
    case SubmitJob => 0x00
    case AssignCollector => 0x01
    case AssignMapper => 0x02
    case AssignReducer => 0x03
    case PhaseDone => 0x04
    case JobResult => 0x05
    case DataChunk => 0x10
  }

  function FromCode(b: u8): Option<OpCode> {
    if b == 0x00 then Some(SubmitJob)
    else if b == 0x01 then Some(AssignCollector)
    else if b == 0x02 then Some(AssignMapper)
    else if b == 0x03 then Some(AssignReducer)
    else if b == 0x04 then Some(PhaseDone)
    else if b == 0x05 then Some(JobResult)
    else if b == 0x10 then Some(DataChunk)
    else None
  }

  const HEADER_SIZE: nat := 4

  /** A parsed message; the operation is `None` when its byte is not a known code. */
  datatype Message = Message(op: Option<OpCode>, job: nat, payload: Bytes)

  /** The bytes of a message. */
  function Frame(op: OpCode, job: u16, payload: Bytes): (b: Bytes)
    ensures |b| == HEADER_SIZE + |payload|
  {
    [Code(op), 0] + BigEndian(job, 2) + payload
  }

  /** A message is at least a header; everything after it is payload. */
  function Parse(b: Bytes): Option<Message> {
    if |b| < HEADER_SIZE then None
    else Some(Message(FromCode(b[0]), FromBig(b[2..4]), b[HEADER_SIZE..]))
  }

  /** The bytes of a message: its code, an unused byte, the job in network order, the payload. */
  lemma FrameLayout(op: OpCode, job: u16, payload: Bytes)
    ensures Frame(op, job, payload)
         == [if op == DataChunk then 0x10 else if op == PhaseDone then 0x04 else if op == JobResult then 0x05
             else if op == AssignReducer then 0x03 else if op == AssignMapper then 0x02
             else if op == AssignCollector then 0x01 else 0x00, 0x00, job / 0x100, job % 0x100] + payload
  {
    var b := BigEndian(job, 2);
    ByteOfNumber(job, 2, 0);
    ByteOfNumber(job, 2, 1);
    assert Range(1) == 0x100 && b == [b[0], b[1]];
  }

  /** Every framed message parses back to its operation, job and payload. */
  lemma ParseFrame(op: OpCode, job: u16, payload: Bytes)
    ensures Parse(Frame(op, job, payload)) == Some(Message(Some(op), job, payload))
  {
    var b := Frame(op, job, payload);
    assert b[2..4] == BigEndian(job, 2) && b[HEADER_SIZE..] == payload;
    RangeValues();
    BigRoundTrip(job, 2);
  }

  /** A known code byte stands for exactly one operation. */
  lemma CodeIsExact(b: u8, op: OpCode)
    ensures FromCode(b) == Some(op) <==> b == Code(op)
  {
  }
}
