/** The kernel's side of perf_event_open, read and close, as the sampler sees it. */
module Perf {
  import opened MachineWords
  import opened Wrappers

  type Tid = int
  type Fd = int

  // The four hardware events sampled for every thread.
  datatype Event = CacheMisses | CpuCycles | Instructions | CacheReferences

  datatype Counter = Counter(tid: Tid, event: Event)

  function AnswerOf(answers: map<Fd, nat>, fd: Fd): Option<nat> { if fd in answers then Some(answers[fd]) else None }

  /** Which descriptors are open, and on which counter. Whether a call succeeds, which unused
      descriptor an open returns and what a read yields are arbitrary: they are the answers of
      two oracles, consulted in the order of the calls. */
  class Kernel {
    var open: map<Fd, Counter>
    var badCloses: nat  // closes of a descriptor that was not open
    var clock: nat
    const fdAnswer: nat -> Fd
    const readAnswer: nat -> Option<nat>
    ghost var answers: map<Fd, nat>  // the last value read from each descriptor
    ghost var failures: seq<Tid>  // the thread of every open and every read that failed

    constructor (fdAnswer: nat -> Fd, readAnswer: nat -> Option<nat>)
      ensures open == map[] && badCloses == 0 && clock == 0 && answers == map[] && failures == []
      ensures this.fdAnswer == fdAnswer && this.readAnswer == readAnswer
    {
      this.fdAnswer := fdAnswer;
      this.readAnswer := readAnswer;
      open, badCloses, clock, answers, failures := map[], 0, 0, map[], [];
    }

    method Open(counter: Counter) returns (fd: Fd)
      modifies this
      ensures badCloses == old(badCloses) && clock == old(clock) + 1 && answers == old(answers)
      ensures fd == if fdAnswer(old(clock)) >= 0 && fdAnswer(old(clock)) !in old(open) then fdAnswer(old(clock)) else -1
      ensures fd < 0 ==> open == old(open) && failures == old(failures) + [counter.tid]
      ensures fd >= 0 ==> fd !in old(open) && open == old(open)[fd := counter] && failures == old(failures)
    {
      fd := fdAnswer(clock);
      clock := clock + 1;
      if fd >= 0 && fd !in open {
        open := open[fd := counter];
      } else {
        fd := -1;
        failures := failures + [counter.tid];
      }
    }

    method Read(fd: Fd) returns (value: Option<nat>)
      requires fd in open
      modifies this`clock, this`answers, this`failures
      ensures clock == old(clock) + 1
      ensures value == match readAnswer(old(clock)) case Some(v) => if v < U64 then Some(v) else None case None => None
      ensures value.Some? ==> answers == old(answers)[fd := value.value] && failures == old(failures)
      ensures value.None? ==> answers == old(answers) && failures == old(failures) + [open[fd].tid]
    {
      value := readAnswer(clock);
      clock := clock + 1;
      if value.Some? && value.value < U64 {
        answers := answers[fd := value.value];
      } else {
        value := None;
        failures := failures + [open[fd].tid];
      }
    }

    method Close(fd: Fd)
      modifies this`open, this`badCloses
      ensures fd in old(open) ==> open == old(open) - {fd} && badCloses == old(badCloses)
      ensures fd !in old(open) ==> open == old(open) && badCloses == old(badCloses) + 1
    {
      if fd in open {
        open := open - {fd};
      } else {
        badCloses := badCloses + 1;
      }
    }
  }
}
