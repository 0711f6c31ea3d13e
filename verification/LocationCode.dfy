/** Location codes: from expanded to unexpanded form, and the FRU type found under a code. */
module LocationCode {
  import opened Base

  const MIN_LENGTH := 17

  const UNEXPANDED_START := "Ufcs-"

  /** The first dash at position from or later. */
  predicate FirstDash(s: string, from: nat, p: nat)
    ensures FirstDash(s, from, p) ==> p <= |s|
  {
    from <= p < |s| && s[p] == '-' && forall k :: from <= k < p ==> s[k] != '-'
  }

  method FindDash(s: string, from: nat) returns (p: Option<nat>)
    ensures p.Some? ==> FirstDash(s, from, p.value)
    ensures p.None? ==> forall k :: from <= k < |s| ==> s[k] != '-'
  {
    var i := from;
    while i < |s|
      invariant i >= from
      invariant forall k :: from <= k < i && k < |s| ==> s[k] != '-'
    {
      if s[i] == '-' {
        return Some(i);
      }
      i := i + 1;
    }
    return None;
  }

  /** The position from which the code is kept. */
  function DashFrom(s: string, i: nat): (r: Option<nat>)
    ensures r.Some? ==> r.value < |s|
    decreases |s| - i
  {
    if i >= |s| then None else if s[i] == '-' then Some(i) else DashFrom(s, i + 1)
  }

  function Unexpanded(s: string): Option<string> {
    if |s| == 0 || s[0] != 'U' || |s| < MIN_LENGTH then None
    else match DashFrom(s, MIN_LENGTH)
      case None => None
      case Some(p) => Some("Ufcs" + s[p..])
  }

  lemma {:induction false} DashFromIsFirst(s: string, i: nat)
    ensures match DashFrom(s, i)
            case Some(p) => FirstDash(s, i, p)
            case None => forall k :: i <= k < |s| ==> s[k] != '-'
    decreases |s| - i
  {
    if i < |s| && s[i] != '-' {
      DashFromIsFirst(s, i + 1);
    }
  }

  method GetUnexpandedLocCode(s: string) returns (r: Option<string>)
    ensures r == Unexpanded(s)
  {
    DashFromIsFirst(s, MIN_LENGTH);
    if |s| == 0 || s[0] != 'U' {
      return None;
    }
    if |s| < MIN_LENGTH {
      return None;
    }
    var end := FindDash(s, MIN_LENGTH);
    if end.None? {
      return None;
    }
    var code := "Ufcs";
    if |s| > MIN_LENGTH {
      code := code + s[end.value..];
    }
    return Some(code);
  }

  /** A code converts iff it starts with U and has a dash at 17 or later; the first such dash and the rest are kept. */
  lemma UnexpandedIff(s: string, r: string)
    ensures Unexpanded(s) == Some(r) <==>
            |s| > 0 && s[0] == 'U' && exists p: nat :: FirstDash(s, 17, p) && r == "Ufcs" + s[p..]
  {
    DashFromIsFirst(s, 17);
  }

  // ---------- lookup ----------

  datatype Fru = Fru(cls: string, location: Option<string>, fruType: Option<Byte>)

  datatype FruResult = FruType(t: Byte) | CodeNotValid | CodeNotFound | ReadFailed

  const FRU_CLASSES: seq<string> := ["proc", "tpm", "dimm"]

  predicate Matches(f: Fru, cls: string, code: string) { f.cls == cls && f.location == Some(code) }

  /** The lookup over the targets of the classes from c on, in the c-th of them from i on. */
  function FetchFrom(frus: seq<Fru>, code: string, c: nat, i: nat): FruResult
    decreases |FRU_CLASSES| - c, |frus| - i
  {
    if c >= |FRU_CLASSES| then CodeNotFound
    else if i >= |frus| then FetchFrom(frus, code, c + 1, 0)
    else if Matches(frus[i], FRU_CLASSES[c], code) then
      if frus[i].fruType.Some? then FruType(frus[i].fruType.value) else ReadFailed
    else FetchFrom(frus, code, c, i + 1)
  }

  method FetchFruTypeFromDevTree(frus: seq<Fru>, code: string) returns (r: FruResult)
    ensures r == FetchFrom(frus, code, 0, 0)
  {
    var c := 0;
    while c < |FRU_CLASSES|
      invariant c <= |FRU_CLASSES|
      invariant FetchFrom(frus, code, 0, 0) == FetchFrom(frus, code, c, 0)
    {
      var i := 0;
      while i < |frus|
        invariant i <= |frus|
        invariant FetchFrom(frus, code, 0, 0) == FetchFrom(frus, code, c, i)
      {
        if frus[i].cls == FRU_CLASSES[c] && frus[i].location.Some? && frus[i].location.value == code {
          if frus[i].fruType.None? {
            return ReadFailed;
          }
          return FruType(frus[i].fruType.value);
        }
        i := i + 1;
      }
      c := c + 1;
    }
    return CodeNotFound;
  }

  /** Target i of the c-th class carries the code, and nothing before it in (class, target) order does. */
  predicate FirstMatch(frus: seq<Fru>, code: string, c: nat, i: nat) {
    && c < |FRU_CLASSES| && i < |frus| && Matches(frus[i], FRU_CLASSES[c], code)
    && (forall k :: 0 <= k < i ==> !Matches(frus[k], FRU_CLASSES[c], code))
    && (forall d, k :: 0 <= d < c && 0 <= k < |frus| ==> !Matches(frus[k], FRU_CLASSES[d], code))
  }

  lemma {:induction false} FetchFinds(frus: seq<Fru>, code: string, c: nat, i: nat, d: nat, j: nat)
    requires c < |FRU_CLASSES| && i <= |frus| && FirstMatch(frus, code, d, j)
    requires c < d || (c == d && i <= j)
    ensures FetchFrom(frus, code, c, i) == if frus[j].fruType.Some? then FruType(frus[j].fruType.value) else ReadFailed
    decreases |FRU_CLASSES| - c, |frus| - i
  {
    if i == |frus| {
      FetchFinds(frus, code, c + 1, 0, d, j);
    } else if !(c == d && i == j) {
      FetchFinds(frus, code, c, i + 1, d, j);
    }
  }

  lemma {:induction false} FetchFails(frus: seq<Fru>, code: string, c: nat, i: nat)
    requires i <= |frus|
    requires forall d, k :: 0 <= d < |FRU_CLASSES| && 0 <= k < |frus| ==> !Matches(frus[k], FRU_CLASSES[d], code)
    ensures FetchFrom(frus, code, c, i) == CodeNotFound
    decreases |FRU_CLASSES| - c, |frus| - i
  {
    if c < |FRU_CLASSES| {
      if i == |frus| {
        FetchFails(frus, code, c + 1, 0);
      } else {
        FetchFails(frus, code, c, i + 1);
      }
    }
  }

  function FruTypeOf(frus: seq<Fru>, s: string): FruResult {
    if UNEXPANDED_START <= s then FetchFrom(frus, s, 0, 0)
    else match Unexpanded(s)
      case None => CodeNotValid
      case Some(code) => FetchFrom(frus, code, 0, 0)
  }

  method GetFruType(frus: seq<Fru>, s: string) returns (r: FruResult)
    ensures r == FruTypeOf(frus, s)
  {
    var code := s;
    if !(UNEXPANDED_START <= code) {
      var loc := GetUnexpandedLocCode(s);
      if loc.Some? {
        code := loc.value;
      } else {
        return CodeNotValid;
      }
    }
    r := FetchFruTypeFromDevTree(frus, code);
  }

  /** A converted code is in unexpanded form, and looking up the code is looking up the converted one. */
  lemma LookupAgrees(frus: seq<Fru>, s: string)
    requires Unexpanded(s).Some? && !(UNEXPANDED_START <= s)
    ensures UNEXPANDED_START <= Unexpanded(s).value
    ensures FruTypeOf(frus, s) == FruTypeOf(frus, Unexpanded(s).value)
  {
    DashFromIsFirst(s, MIN_LENGTH);
    var r := Unexpanded(s).value;
    assert r[4] == '-';
    assert UNEXPANDED_START == r[..5];
  }

  /** The type found is that of the first target, processors before TPMs before DIMMs, that carries the code. */
  lemma LookupIsFirst(frus: seq<Fru>, code: string)
    requires UNEXPANDED_START <= code
    ensures forall c: nat, i: nat :: FirstMatch(frus, code, c, i) ==>
              FruTypeOf(frus, code) == if frus[i].fruType.Some? then FruType(frus[i].fruType.value) else ReadFailed
    ensures (forall d, k :: 0 <= d < |FRU_CLASSES| && 0 <= k < |frus| ==> !Matches(frus[k], FRU_CLASSES[d], code)) ==>
              FruTypeOf(frus, code) == CodeNotFound
  {
    forall c: nat, i: nat | FirstMatch(frus, code, c, i)
      ensures FruTypeOf(frus, code) == if frus[i].fruType.Some? then FruType(frus[i].fruType.value) else ReadFailed
    {
      FetchFinds(frus, code, 0, 0, c, i);
    }
    if forall d, k :: 0 <= d < |FRU_CLASSES| && 0 <= k < |frus| ==> !Matches(frus[k], FRU_CLASSES[d], code) {
      FetchFails(frus, code, 0, 0);
    }
  }

  // ---------- the lookup class by class ----------

  /** Target i is the first of its class that carries the code. */
  predicate FirstOf(frus: seq<Fru>, cls: string, code: string, i: nat) {
    && i < |frus| && frus[i].cls == cls && frus[i].location == Some(code)
    && forall k :: 0 <= k < i ==> !(frus[k].cls == cls && frus[k].location == Some(code))
  }

  predicate NoneOf(frus: seq<Fru>, cls: string, code: string) {
    forall k :: 0 <= k < |frus| ==> !(frus[k].cls == cls && frus[k].location == Some(code))
  }

  /** The type of this target, or a read failure. */
  predicate Answers(r: FruResult, f: Fru) {
    r == match f.fruType case Some(t) => FruType(t) case None => ReadFailed
  }

  /** Going through one class, the c-th. */
  lemma {:induction false} FetchClass(frus: seq<Fru>, code: string, c: nat, i: nat)
    requires c < |FRU_CLASSES| && i <= |frus|
    requires forall k :: 0 <= k < i ==> !Matches(frus[k], FRU_CLASSES[c], code)
    ensures NoneOf(frus, FRU_CLASSES[c], code) ==> FetchFrom(frus, code, c, i) == FetchFrom(frus, code, c + 1, 0)
    ensures forall j: nat :: FirstOf(frus, FRU_CLASSES[c], code, j) ==> Answers(FetchFrom(frus, code, c, i), frus[j])
    decreases |frus| - i
  {
    if i < |frus| && !Matches(frus[i], FRU_CLASSES[c], code) {
      FetchClass(frus, code, c, i + 1);
    }
  }

  /** An unexpanded code is looked up among processors, then TPMs, then DIMMs; the first that carries it answers. */
  lemma LookupByClass(frus: seq<Fru>, code: string, i: nat)
    requires "Ufcs-" <= code
    ensures FirstOf(frus, "proc", code, i) ==> Answers(FruTypeOf(frus, code), frus[i])
    ensures NoneOf(frus, "proc", code) && FirstOf(frus, "tpm", code, i) ==> Answers(FruTypeOf(frus, code), frus[i])
    ensures NoneOf(frus, "proc", code) && NoneOf(frus, "tpm", code) && FirstOf(frus, "dimm", code, i) ==>
              Answers(FruTypeOf(frus, code), frus[i])
    ensures NoneOf(frus, "proc", code) && NoneOf(frus, "tpm", code) && NoneOf(frus, "dimm", code) ==>
              FruTypeOf(frus, code) == CodeNotFound
  {
    assert FRU_CLASSES[0] == "proc" && FRU_CLASSES[1] == "tpm" && FRU_CLASSES[2] == "dimm";
    FetchClass(frus, code, 0, 0);
    FetchClass(frus, code, 1, 0);
    FetchClass(frus, code, 2, 0);
  }

  /** Any other code is invalid iff it does not start with U or has no dash at 17 or later. */
  lemma InvalidIff(frus: seq<Fru>, s: string)
    ensures FruTypeOf(frus, s) == CodeNotValid <==>
            && !("Ufcs-" <= s)
            && (|s| == 0 || s[0] != 'U' || forall k :: 17 <= k < |s| ==> s[k] != '-')
  {
    DashFromIsFirst(s, 17);
    NeverInvalid(frus, s, 0, 0);
    if Unexpanded(s).Some? {
      NeverInvalid(frus, Unexpanded(s).value, 0, 0);
    }
  }

  lemma {:induction false} NeverInvalid(frus: seq<Fru>, code: string, c: nat, i: nat)
    ensures FetchFrom(frus, code, c, i) != CodeNotValid
    decreases |FRU_CLASSES| - c, |frus| - i
  {
    if c < |FRU_CLASSES| {
      if i >= |frus| {
        NeverInvalid(frus, code, c + 1, 0);
      } else {
        NeverInvalid(frus, code, c, i + 1);
      }
    }
  }
}
