/** Stack traces as the sampler hands them to the writers. */
module StackTraces {
  import opened Wrappers

  type Int32 = x: int | -0x8000_0000 <= x < 0x8000_0000

  datatype Frame = Frame(
    name: string, filename: string, module_: Option<string>, shortFilename: Option<string>, line: Int32)

  /** Frames are stored innermost first. */
  datatype StackTrace = StackTrace(
    pid: Int32, threadId: nat, threadName: Option<string>, osThreadId: Option<nat>, active: bool, frames: seq<Frame>)

  /** `x as u32`. */
  function AsU32(x: Int32): nat {
    if x < 0 then x + 0x1_0000_0000 else x
  }

  /** `x as u64`. */
  function AsU64(x: Int32): nat {
    if x < 0 then x + 0x1_0000_0000_0000_0000 else x
  }

  function Reversed<T>(s: seq<T>): (r: seq<T>)
    ensures |r| == |s|
    ensures forall i | 0 <= i < |s| :: r[i] == s[|s| - 1 - i]
  {
    seq(|s|, i requires 0 <= i < |s| => s[|s| - 1 - i])
  }
}
