/** Discovering running instances: from the service names on the bus to the
    names of instances and their sources, in order. */
module RuntimeDiscovery {
  import opened Input
  import opened InstanceNames

  datatype Record = Record(instance: string, source: string)

  /** What follows the last dot; nothing, if there is no dot. */
  function AfterLastDot(text: string): Option<string> {
    if text == [] then None
    else
      var rest := AfterLastDot(text[1..]);
      if rest.Some? then rest else if text[0] == '.' then Some(text[1..]) else None
  }

  /** The instance a service name is taken to belong to. */
  function InstanceOf(service: string): Option<string> {
    if !(SERVICE_PREFIX < service) then None
    else
      var name := AfterLastDot(service);
      if name == Some("") then None else name
  }

  lemma {:induction false} NoDotNoName(text: string)
    requires '.' !in text
    ensures AfterLastDot(text) == None
  {
    if text != [] {
      NoDotNoName(text[1..]);
    }
  }

  lemma {:induction false} DotlessSuffix(front: string, name: string)
    requires '.' !in name
    ensures AfterLastDot(front + ("." + name)) == Some(name)
    decreases |front|
  {
    var text := front + ("." + name);
    if front == [] {
      assert text[1..] == name;
      NoDotNoName(name);
    } else {
      assert text[1..] == front[1..] + ("." + name);
      DotlessSuffix(front[1..], name);
    }
  }

  lemma {:induction false} SuffixIsDotless(text: string)
    ensures AfterLastDot(text).Some? ==> '.' !in AfterLastDot(text).value
    ensures AfterLastDot(text).None? ==> '.' !in text
  {
    if text != [] {
      SuffixIsDotless(text[1..]);
    }
  }

  lemma {:induction false} LastDotIff(text: string, name: string)
    ensures AfterLastDot(text) == Some(name) <==>
            |name| < |text| && '.' !in name && text[|text| - |name| - 1..] == "." + name
  {
    if |name| < |text| && '.' !in name && text[|text| - |name| - 1..] == "." + name {
      var front := text[..|text| - |name| - 1];
      assert text == front + ("." + name);
      DotlessSuffix(front, name);
    }
    if AfterLastDot(text) == Some(name) {
      SuffixIsDotless(text);
      SuffixFollowsDot(text);
    }
  }

  lemma {:induction false} SuffixFollowsDot(text: string)
    ensures AfterLastDot(text).Some? ==>
      var name := AfterLastDot(text).value;
      |name| < |text| && text[|text| - |name| - 1..] == "." + name
  {
    if text != [] {
      var rest := text[1..];
      SuffixFollowsDot(rest);
      if AfterLastDot(rest).Some? {
        var name := AfterLastDot(rest).value;
        assert text[|text| - |name| - 1..] == rest[|rest| - |name| - 1..];
      } else if text[0] == '.' {
        assert text[|text| - |rest| - 1..] == "." + rest;
      }
    }
  }

  /** A service belongs to an instance exactly if it goes on after the common
      prefix, and the instance is what follows its last dot. */
  lemma InstanceOfIff(service: string, name: string)
    ensures InstanceOf(service) == Some(name) <==>
            && "net.controlforge.InputProxy1.Instance." <= service
            && name != "" && '.' !in name && |name| < |service|
            && service[|service| - |name| - 1..] == "." + name
  {
    LastDotIff(service, name);
    if InstanceOf(service) == Some(name) || service == SERVICE_PREFIX {
      LastDotIff(service, "");
      assert SERVICE_PREFIX[|SERVICE_PREFIX| - 1..] == "." + "";
    }
  }

  /** A service name leads back to the instance it was derived from exactly
      when that instance's name is not empty and has no dot. */
  lemma RecoveredIff(name: string)
    ensures InstanceOf(SERVICE_PREFIX + name) == Some(name) <==> name != "" && '.' !in name
  {
    var service := SERVICE_PREFIX + name;
    SuffixIsDotless(service);
    if '.' !in name {
      var front := SERVICE_PREFIX[..|SERVICE_PREFIX| - 1];
      assert SERVICE_PREFIX == front + ".";
      assert service == front + ("." + name);
      DotlessSuffix(front, name);
    }
  }

  /** In particular, every valid instance name survives the round trip. */
  lemma DiscoveredNameIsInstanceName(name: string)
    requires ValidName(name)
    ensures InstanceOf("net.controlforge.InputProxy1.Instance." + name) == Some(name)
  {
    assert '.' !in name;
    RecoveredIff(name);
  }

  // ----- The order of records -----

  /** The order of strcmp: `a` is not behind `b`. */
  predicate NotBehind(a: string, b: string) {
    if a == [] then true
    else if b == [] then false
    else if a[0] != b[0] then a[0] < b[0]
    else NotBehind(a[1..], b[1..])
  }

  /** At the first difference the smaller byte comes first, and a beginning
      comes before what it begins. */
  lemma {:induction false} NotBehindIff(a: string, b: string)
    ensures NotBehind(a, b) <==>
            a <= b || exists k: nat :: k < |a| && k < |b| && a[..k] == b[..k] && a[k] < b[k]
  {
    if a != [] && b != [] {
      var ra, rb := a[1..], b[1..];
      if a[0] == b[0] {
        NotBehindIff(ra, rb);
        if k: nat :| k < |a| && k < |b| && a[..k] == b[..k] && a[k] < b[k] {
          assert ra[..k - 1] == a[..k][1..] && rb[..k - 1] == b[..k][1..];
          assert ra[k - 1] < rb[k - 1];
        }
        if k: nat :| k < |ra| && k < |rb| && ra[..k] == rb[..k] && ra[k] < rb[k] {
          assert a[..k + 1] == [a[0]] + ra[..k] && b[..k + 1] == [b[0]] + rb[..k];
          assert a[k + 1] < b[k + 1];
        }
      } else {
        assert a[..0] == b[..0];
        forall k: nat | 0 < k < |a| && k < |b| ensures a[..k] != b[..k] {
          assert a[..k][0] != b[..k][0];
        }
      }
    }
  }

  lemma {:induction false} OrderIsTotal(a: string, b: string)
    ensures NotBehind(a, b) || NotBehind(b, a)
  {
    if a != [] && b != [] && a[0] == b[0] {
      OrderIsTotal(a[1..], b[1..]);
    }
  }

  lemma {:induction false} OrderIsTransitive(a: string, b: string, c: string)
    requires NotBehind(a, b) && NotBehind(b, c)
    ensures NotBehind(a, c)
  {
    if a != [] && b != [] && c != [] && a[0] == b[0] == c[0] {
      OrderIsTransitive(a[1..], b[1..], c[1..]);
    }
  }

  ghost predicate Ordered(records: seq<Record>) {
    forall i, j | 0 <= i < j < |records| :: NotBehind(records[i].instance, records[j].instance)
  }

  /** `r` put in its place. */
  function Inserted(records: seq<Record>, r: Record): (result: seq<Record>)
    ensures multiset(result) == multiset(records) + multiset{r}
  {
    if records == [] then [r]
    else if NotBehind(r.instance, records[0].instance) then [r] + records
    else
      assert records == [records[0]] + records[1..];
      [records[0]] + Inserted(records[1..], r)
  }

  lemma {:induction false} InsertedIsOrdered(records: seq<Record>, r: Record)
    requires Ordered(records)
    ensures Ordered(Inserted(records, r))
  {
    if records != [] {
      var first, rest := records[0], records[1..];
      if NotBehind(r.instance, first.instance) {
        forall i | 0 <= i < |records| ensures NotBehind(r.instance, records[i].instance) {
          if i > 0 {
            OrderIsTransitive(r.instance, first.instance, records[i].instance);
          }
        }
      } else {
        OrderIsTotal(r.instance, first.instance);
        InsertedIsOrdered(rest, r);
        forall x | x in Inserted(rest, r) ensures NotBehind(first.instance, x.instance) {
          assert x in multiset(rest) + multiset{r};
          if x != r {
            assert x in rest;
          }
        }
      }
    }
  }

  /** What the records are, before they are sorted: one for each service name
      of an instance whose source could be looked up. */
  function Found(services: seq<string>, answers: seq<Option<string>>): seq<Record>
    requires |services| == |answers|
  {
    if services == [] then []
    else
      var last := |services| - 1;
      Found(services[..last], answers[..last]) +
      if InstanceOf(services[last]).Some? && answers[last].Some?
      then [Record(InstanceOf(services[last]).value, answers[last].value)] else []
  }

  lemma FoundSnoc(services: seq<string>, answers: seq<Option<string>>, i: nat)
    requires i < |services| == |answers|
    ensures Found(services[..i + 1], answers[..i + 1]) ==
            Found(services[..i], answers[..i]) +
            if InstanceOf(services[i]).Some? && answers[i].Some?
            then [Record(InstanceOf(services[i]).value, answers[i].value)] else []
  {
    hide InstanceOf;
    assert services[..i + 1][..i] == services[..i] && answers[..i + 1][..i] == answers[..i];
  }

  class Snapshot {
    var available: bool
    var records: seq<Record>

    constructor ()
      ensures !available && records == []
    {
      available, records := false, [];
    }

    /** Sorts the records in place. */
    method Sort()
      modifies this`records
      ensures Ordered(records) && multiset(records) == multiset(old(records))
    {
      var sorted: seq<Record> := [];
      for i := 0 to |records|
        invariant records == old(records)
        invariant Ordered(sorted) && multiset(sorted) == multiset(records[..i])
      {
        InsertedIsOrdered(sorted, records[i]);
        sorted := Inserted(sorted, records[i]);
        assert records[..i + 1] == records[..i] + [records[i]];
      }
      assert records[..|records|] == records;
      records := sorted;
    }

    /** Takes the running instances in. `answers` are the results of looking
        the sources up, in order. */
    method Build(services: seq<string>, answers: seq<Option<string>>) returns (ok: bool, ghost smooth: bool)
      requires |services| == |answers|
      modifies this
      ensures ok ==> available && Ordered(records) && multiset(records) == multiset(Found(services, answers))
      ensures !ok ==> !available && records == []
      ensures ok <==> smooth
    {
      hide InstanceOf, Ordered;
      available, records, smooth := true, [], true;
      for i := 0 to |services|
        invariant smooth && available && records == Found(services[..i], answers[..i])
      {
        FoundSnoc(services, answers, i);
        var instance := InstanceOf(services[i]);
        if instance.None? || answers[i].None? {
          continue;
        }
        var memory: bool := *;
        smooth := memory;
        if !memory {
          available, records := false, [];
          return false, smooth;
        }
        records := records + [Record(instance.value, answers[i].value)];
      }
      assert services[..|services|] == services && answers[..|answers|] == answers;
      Sort();
      return true, smooth;
    }
  }
}
