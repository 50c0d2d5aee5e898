// Picking from sets.
module Sets {
  ghost function AnyOf<T>(s: set<T>): (x: T)
    requires s != {}
    ensures x in s
  {
    var x :| x in s;
    x
  }

  method Pick<T>(s: set<T>) returns (x: T)
    requires s != {}
    ensures x in s
  {
    x :| x in s;
  }

  function SetOf<T>(s: seq<T>): set<T> { set x | x in s }

  lemma SetOfAppend<T>(s: seq<T>, x: T)
    ensures SetOf(s + [x]) == SetOf(s) + {x}
  {
  }

  lemma SetOfAll<T>(s: seq<T>, more: seq<T>)
    ensures SetOf(s + more) == SetOf(s) + SetOf(more)
  {
  }

  // The elements of a set in some order, each once.
  method List<T>(s: set<T>) returns (list: seq<T>)
    ensures SetOf(list) == s && |list| == |s|
  {
    list := [];
    var pending := s;
    while pending != {}
      invariant pending <= s && SetOf(list) == s - pending && |list| == |s| - |pending|
      decreases |pending|
    {
      var x := Pick(pending);
      SetOfAppend(list, x);
      list, pending := list + [x], pending - {x};
    }
  }
}
