/** Instance names, the D-Bus service names derived from them, and the way back. */
module InstanceNames {
  import opened Input

  const SERVICE_PREFIX: string := "net.controlforge.InputProxy1.Instance."
  /** Room for the longest service name and its terminator. */
  const SERVICE_NAME_SIZE: nat := 38 + 1 + 79

  predicate IsAsciiLetter(c: char) {
    'A' <= c <= 'Z' || 'a' <= c <= 'z'
  }

  predicate IsDigit(c: char) {
    '0' <= c <= '9'
  }

  /** The public rule for instance names. */
  predicate ValidName(name: string) {
    && 1 <= |name| <= 79
    && (IsAsciiLetter(name[0]) || name[0] == '_')
    && forall c | c in name :: IsAsciiLetter(c) || IsDigit(c) || c == '_' || c == '-'
  }

  method Validate(name: string) returns (valid: bool)
    ensures valid <==> ValidName(name)
    ensures valid <==>
      && 1 <= |name| <= 79 && !('0' <= name[0] <= '9') && name[0] != '-'
      && forall c | c in name :: 'A' <= c <= 'Z' || 'a' <= c <= 'z' || '0' <= c <= '9' || c in "_-"
  {
    if |name| == 0 || |name| > 79 {
      return false;
    }
    assert name[0] in name;
    if !IsAsciiLetter(name[0]) && name[0] != '_' {
      return false;
    }
    for index := 1 to |name|
      invariant forall i | 0 <= i < index ::
        IsAsciiLetter(name[i]) || IsDigit(name[i]) || name[i] == '_' || name[i] == '-'
    {
      var byte := name[index];
      if !IsAsciiLetter(byte) && !IsDigit(byte) && byte != '_' && byte != '-' {
        assert name[index] in name;
        return false;
      }
    }
    return true;
  }

  // ----- "Valid Names", "Bus names", in the D-Bus Specification -----

  predicate ElementByte(c: char) {
    IsAsciiLetter(c) || IsDigit(c) || c == '_' || c == '-'
  }

  /** Elements between dots: not empty, and not led by a digit. `inside` tells
      whether the element at the front has begun. */
  predicate ValidElements(name: string, inside: bool) {
    if name == [] then inside
    else if name[0] == '.' then inside && ValidElements(name[1..], false)
    else ElementByte(name[0]) && (inside || !IsDigit(name[0])) && ValidElements(name[1..], true)
  }

  /** A well-known bus name: at most 255 bytes, with at least one dot. */
  predicate ValidBusName(name: string) {
    |name| <= 255 && '.' in name && ValidElements(name, false)
  }

  /** Byte by byte: what may follow what. */
  ghost predicate WellPlaced(name: string, i: nat, inside: bool)
    requires i < |name|
  {
    var first := if i == 0 then !inside else name[i - 1] == '.';
    if name[i] == '.' then !first
    else
      && ('A' <= name[i] <= 'Z' || 'a' <= name[i] <= 'z' || '0' <= name[i] <= '9' || name[i] in "_-")
      && (first ==> !('0' <= name[i] <= '9'))
  }

  lemma {:induction false} ElementsIff(name: string, inside: bool)
    ensures ValidElements(name, inside) <==>
            && (if name == [] then inside else name[|name| - 1] != '.')
            && forall i: nat | i < |name| :: WellPlaced(name, i, inside)
  {
    if name != [] {
      var rest, later := name[1..], name[0] != '.';
      ElementsIff(rest, later);
      forall i: nat | i < |rest| ensures WellPlaced(rest, i, later) <==> WellPlaced(name, i + 1, inside) {
      }
      if forall i: nat | i < |name| :: WellPlaced(name, i, inside) {
        assert WellPlaced(name, 0, inside);
        forall i: nat | i < |rest| ensures WellPlaced(rest, i, later) {
          assert WellPlaced(name, i + 1, inside);
        }
      }
      if forall i: nat | i < |rest| :: WellPlaced(rest, i, later) {
        forall i: nat | 0 < i < |name| ensures WellPlaced(name, i, inside) {
          assert WellPlaced(rest, i - 1, later);
        }
      }
    }
  }

  /** A name is a bus name exactly if it has a dot, is not too long, begins and
      ends with an element, has no two dots in a row and no element that begins
      with a digit, and nothing but the bytes allowed. */
  lemma BusNameIff(name: string)
    ensures ValidBusName(name) <==>
            && '.' in name && |name| <= 255 && name[0] != '.' && name[|name| - 1] != '.'
            && (forall i | 0 < i < |name| :: name[i] == '.' ==> name[i - 1] != '.')
            && (forall i | 0 <= i < |name| :: '0' <= name[i] <= '9' ==> i > 0 && name[i - 1] != '.')
            && forall c | c in name :: AllowedByte(c)
  {
    ElementsIff(name, false);
    if ValidBusName(name) {
      forall i: nat | i < |name|
        ensures name[i] == '.' ==> i > 0 && name[i - 1] != '.'
        ensures '0' <= name[i] <= '9' ==> i == 0 || name[i - 1] != '.'
        ensures AllowedByte(name[i])
        ensures i == 0 ==> !('0' <= name[i] <= '9')
      {
        assert WellPlaced(name, i, false);
      }
    } else if '.' in name && |name| <= 255 && name[|name| - 1] != '.' {
      var i: nat :| i < |name| && !WellPlaced(name, i, false);
      assert name[i] in name;
    }
  }

  predicate AllowedByte(c: char) {
    'A' <= c <= 'Z' || 'a' <= c <= 'z' || '0' <= c <= '9' || c in "_-."
  }

  method DeriveServiceName(instanceName: string, size: nat) returns (service: Option<string>)
    ensures service == if |SERVICE_PREFIX + instanceName| < size && ValidBusName(SERVICE_PREFIX + instanceName)
                       then Some(SERVICE_PREFIX + instanceName) else None
    ensures ValidName(instanceName) && size >= SERVICE_NAME_SIZE ==> service.Some?
  {
    if ValidName(instanceName) {
      DerivedNameIsValid(instanceName);
    }
    var name := SERVICE_PREFIX + instanceName;
    if |name| >= size {
      return None;
    }
    return if ValidBusName(name) then Some(name) else None;
  }

  predicate ElementBytes(element: string) {
    forall i | 0 <= i < |element| :: ElementByte(element[i])
  }

  lemma {:induction false} ElementInFront(element: string, rest: string, inside: bool)
    requires ElementBytes(element) && (inside || (element != [] && !IsDigit(element[0])))
    requires ValidElements(rest, true)
    ensures ValidElements(element + rest, inside)
    decreases |element|
  {
    if element == [] {
      assert element + rest == rest;
    } else {
      assert (element + rest)[1..] == element[1..] + rest;
      assert element[0] != '.';
      ElementInFront(element[1..], rest, true);
    }
  }

  lemma DotInFront(rest: string)
    requires ValidElements(rest, false)
    ensures ValidElements("." + rest, true)
  {
  }

  /** A valid name behind one more element of the prefix. */
  lemma ElementAndDot(element: string, rest: string)
    requires ElementBytes(element) && element != [] && !IsDigit(element[0]) && ValidElements(rest, false)
    ensures ValidElements(element + ("." + rest), false)
  {
    DotInFront(rest);
    ElementInFront(element, "." + rest, false);
  }

  lemma PrefixParts(name: string)
    ensures SERVICE_PREFIX + name ==
            "net" + ("." + ("controlforge" + ("." + ("InputProxy1" + ("." + ("Instance" + ("." + name)))))))
  {
  }

  /** Every valid instance name yields a valid bus name that fits its buffer. */
  lemma DerivedNameIsValid(name: string)
    requires ValidName(name)
    ensures ValidBusName(SERVICE_PREFIX + name) && |SERVICE_PREFIX + name| < SERVICE_NAME_SIZE
  {
    assert forall i | 0 <= i < |name| :: name[i] in name;
    assert name + [] == name;
    ElementInFront(name, [], false);
    ElementAndDot("Instance", name);
    ElementAndDot("InputProxy1", "Instance" + ("." + name));
    ElementAndDot("controlforge", "InputProxy1" + ("." + ("Instance" + ("." + name))));
    ElementAndDot("net", "controlforge" + ("." + ("InputProxy1" + ("." + ("Instance" + ("." + name))))));
    PrefixParts(name);
    assert (SERVICE_PREFIX + name)[3] == '.';
  }
}
