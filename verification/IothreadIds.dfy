/** Names of managed IOThreads: `iot` and a decimal number (src/backends/qemu/helpers.rs). */
module IothreadIds {
  import opened Common

  const ID_LIMIT: nat := 1024

  function Digit(d: nat): char
    requires d < 10
  {
    "0123456789"[d]
  }

  predicate IsDigit(c: char) {
    '0' <= c <= '9'
  }

  function Decimal(n: nat): string {
    if n < 10 then [Digit(n)] else Decimal(n / 10) + [Digit(n % 10)]
  }

  function IotName(n: nat): string {
    "iot" + Decimal(n)
  }

  function ExtraName(n: nat): string {
    "iot-extra-" + Decimal(n)
  }

  /** What the topology parser accepts as a managed id. */
  predicate IsManaged(id: string) {
    3 < |id| && id[..3] == "iot" && forall k :: 3 <= k < |id| ==> IsDigit(id[k])
  }

  /** The first unused number in `n..1024`. */
  function LowestFree(existing: seq<string>, n: nat): Option<nat>
    decreases ID_LIMIT - n
  {
    if n >= ID_LIMIT then None
    else if IotName(n) !in existing then Some(n)
    else LowestFree(existing, n + 1)
  }

  function NextId(existing: seq<string>, extra: nat): string {
    match LowestFree(existing, 0)
    case Some(n) => IotName(n)
    case None => ExtraName(extra)
  }

  /** Scan for a free number, and fall back on the counter; the result is `NextId`. */
  method NextQemuIothreadId(existing: seq<string>, extra: nat) returns (id: string, extraAfter: nat)
    ensures id == NextId(existing, extra)
    ensures extraAfter == if LowestFree(existing, 0).Some? then extra else extra + 1
  {
    for n := 0 to ID_LIMIT
      invariant LowestFree(existing, 0) == LowestFree(existing, n)
    {
      if IotName(n) !in existing {
        return IotName(n), extra;
      }
    }
    return ExtraName(extra), extra + 1;
  }

  lemma DigitInjective(c: nat, d: nat)
    requires c < 10 && d < 10 && Digit(c) == Digit(d)
    ensures c == d
  {
  }

  lemma {:induction false} DecimalInjective(m: nat, n: nat)
    requires Decimal(m) == Decimal(n)
    ensures m == n
  {
    var s, t := Decimal(m), Decimal(n);
    DecimalDigits(m);
    DecimalDigits(n);
    assert s[|s| - 1] == Digit(m % 10) && t[|t| - 1] == Digit(n % 10);
    DigitInjective(m % 10, n % 10);
    if m >= 10 {
      assert s[..|s| - 1] == Decimal(m / 10);
      assert t[..|t| - 1] == Decimal(n / 10);
      DecimalInjective(m / 10, n / 10);
    }
  }

  lemma {:induction false} DecimalDigits(n: nat)
    ensures 0 < |Decimal(n)|
    ensures |Decimal(n)| == 1 <==> n < 10
    ensures forall k :: 0 <= k < |Decimal(n)| ==> IsDigit(Decimal(n)[k])
  {
    if n >= 10 {
      DecimalDigits(n / 10);
    }
  }

  lemma IotNamesDistinct(m: nat, n: nat)
    requires IotName(m) == IotName(n)
    ensures m == n
  {
    assert IotName(m)[3..] == Decimal(m);
    assert IotName(n)[3..] == Decimal(n);
    DecimalInjective(m, n);
  }

  lemma NamesManaged(n: nat)
    ensures IsManaged(IotName(n)) && !IsManaged(ExtraName(n))
  {
    DecimalDigits(n);
    assert ExtraName(n)[3] == '-';
  }

  /** Managed ids are `iot` and at least one digit. */
  lemma ManagedExactly(id: string)
    ensures IsManaged(id) <==>
              exists digits: string ::
                && id == "iot" + digits && digits != []
                && forall k :: 0 <= k < |digits| ==> digits[k] in "0123456789"
  {
    if IsManaged(id) {
      var digits := id[3..];
      assert id == "iot" + digits;
      forall k | 0 <= k < |digits|
        ensures digits[k] in "0123456789"
      {
        assert IsDigit(id[k + 3]);
        DigitIsListed(digits[k]);
      }
    }
    if digits: string :| id == "iot" + digits && digits != []
                         && forall k :: 0 <= k < |digits| ==> digits[k] in "0123456789" {
      forall k | 3 <= k < |id|
        ensures IsDigit(id[k])
      {
        assert id[k] == digits[k - 3];
      }
    }
  }

  lemma DigitIsListed(c: char)
    ensures IsDigit(c) <==> c in "0123456789"
  {
    if IsDigit(c) {
      var d := c as int - '0' as int;
      assert "0123456789"[d] == c;
    }
  }

  function Names(n: nat): set<string> {
    set k | 0 <= k < n :: IotName(k)
  }

  lemma {:induction false} NamesCount(n: nat)
    ensures |Names(n)| == n
  {
    if n != 0 {
      NamesCount(n - 1);
      assert Names(n) == Names(n - 1) + {IotName(n - 1)};
      if IotName(n - 1) in Names(n - 1) {
        var k :| 0 <= k < n - 1 && IotName(k) == IotName(n - 1);
        IotNamesDistinct(k, n - 1);
      }
    }
  }

  lemma {:induction false} ElementsCount(s: seq<string>)
    ensures |Elements(s)| <= |s|
  {
    if |s| != 0 {
      var front := s[..|s| - 1];
      ElementsCount(front);
      ElementsNext(front, s[|s| - 1]);
      assert s == front + [s[|s| - 1]];
    }
  }

  lemma {:induction false} LowestFreeMeaning(existing: seq<string>, n: nat)
    requires n <= 1024
    ensures match LowestFree(existing, n)
            case Some(k) => n <= k < 1024 && IotName(k) !in existing
                            && forall m :: n <= m < k ==> IotName(m) in existing
            case None => forall m :: n <= m < 1024 ==> IotName(m) in existing
    decreases ID_LIMIT - n
  {
    if n < ID_LIMIT && IotName(n) in existing {
      LowestFreeMeaning(existing, n + 1);
    }
  }

  /** Fewer than 1024 threads leave a number free. */
  lemma FreeBelowLimit(existing: seq<string>)
    requires |existing| < 1024
    ensures LowestFree(existing, 0).Some?
  {
    LowestFreeMeaning(existing, 0);
    if LowestFree(existing, 0).None? {
      NamesCount(ID_LIMIT);
      ElementsCount(existing);
      assert Names(ID_LIMIT) <= Elements(existing);
      SubsetCount(Names(ID_LIMIT), Elements(existing));
      assert false;
    }
  }

  lemma {:induction false} SubsetCount(a: set<string>, b: set<string>)
    requires a <= b
    ensures |a| <= |b|
  {
    assert b == a + (b - a);
  }

  /**
   Among objects whose managed ids are exactly `existing`, the next id is
   unused if and only if a number below 1024 is free or the counter's name is.
   */
  lemma NextIdFreshExactly(existing: seq<string>, objects: set<string>, extra: nat)
    requires forall id :: id in existing <==> id in objects && IsManaged(id)
    ensures NextId(existing, extra) !in objects
       <==> (exists n :: 0 <= n < 1024 && IotName(n) !in existing) || ExtraName(extra) !in objects
  {
    LowestFreeMeaning(existing, 0);
    match LowestFree(existing, 0) {
      case Some(n) => NamesManaged(n);
      case None =>
    }
  }
}
