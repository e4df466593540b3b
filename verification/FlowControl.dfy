/** The byte window of one session. */
module FlowControl {

  class WindowFlowController {
    const maxWindow: int
    var consumed: int
    var buffered: int

    constructor (maxWindow: int)
      ensures this.maxWindow == maxWindow && consumed == 0 && buffered == 0
    {
      this.maxWindow := maxWindow;
      consumed, buffered := 0, 0;
    }

    method ShouldPause() returns (pause: bool)
      ensures pause <==> buffered > maxWindow
    {
      pause := buffered > maxWindow;
    }

    method OnConsumed(n: int)
      modifies this
      ensures consumed == old(consumed) + n && buffered == old(buffered) - n
    {
      consumed := consumed + n;
      buffered := buffered - n;
    }

    method OnBuffered(n: int)
      modifies this`buffered
      ensures buffered == old(buffered) + n
    {
      buffered := buffered + n;
    }
  }
}
