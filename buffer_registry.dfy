/**
  The registry of GPU buffers that `GLES2Vertex::prepare` shares between
  draws: a map from a key (the decimal rendering context id followed by the
  buffer attribute's UUID) to the buffer handle the driver generated for it.
  `setupBuffer` generates a buffer only for a key that is not yet known, and
  registers on the attribute an update hook (which uploads the attribute's
  data into that buffer) and a delete hook (which releases the buffer).
*/
module BufferRegistry {

  /** The rendering context id, a C++ `unsigned`. */
  type ContextId = n: nat | n < 0x1_0000_0000

  /** A buffer handle the driver handed out. */
  type Handle = nat

  /** The binding point a buffer serves. */
  datatype Target = ArrayBuffer | ElementArrayBuffer

  /** A callback registered on a buffer attribute, as an abstract token: the
      attribute it was registered on and the buffer it captures. */
  datatype Hook =
    | UpdateHook(attribute: string, buffer: Handle, target: Target)
    | DeleteHook(attribute: string, buffer: Handle)

  predicate IsDigit(c: char) {
    '0' <= c <= '9'
  }

  function DigitChar(d: nat): (c: char)
    requires d < 10
    ensures IsDigit(c) && (c as int) - ('0' as int) == d
  {
    (('0' as int) + d) as char
  }

  /** `std::to_string` of an unsigned number: its decimal digits, most
      significant first, with no leading zero. */
  function DecimalString(n: nat): (s: string)
    ensures |s| >= 1
    ensures forall i :: 0 <= i < |s| ==> IsDigit(s[i])
    ensures s[0] == '0' ==> n == 0
    decreases n
  {
    if n < 10 then [DigitChar(n)] else DecimalString(n / 10) + [DigitChar(n % 10)]
  }

  /** The number a string of decimal digits denotes. */
  function DecimalValue(s: string): nat
    requires forall i :: 0 <= i < |s| ==> IsDigit(s[i])
    decreases |s|
  {
    if s == [] then 0
    else
      assert IsDigit(s[|s| - 1]);
      DecimalValue(s[..|s| - 1]) * 10 + ((s[|s| - 1] as int) - ('0' as int))
  }

  lemma {:induction false} DecimalRoundTrip(n: nat)
    ensures DecimalValue(DecimalString(n)) == n
    decreases n
  {
    var s := DecimalString(n);
    if n < 10 {
      assert s[..0] == [];
    } else {
      DecimalRoundTrip(n / 10);
      assert s[..|s| - 1] == DecimalString(n / 10);
    }
  }

  /** Different context ids render differently. */
  lemma DecimalInjective(m: nat, n: nat)
    requires DecimalString(m) == DecimalString(n)
    ensures m == n
  {
    DecimalRoundTrip(m);
    DecimalRoundTrip(n);
  }

  /** The registry key of an attribute in a context. */
  function Key(contextId: ContextId, uuid: string): string {
    DecimalString(contextId) + uuid
  }

  /** With UUIDs of one fixed length, distinct (context, attribute) pairs
      never share a key. */
  lemma KeyInjective(c1: ContextId, u1: string, c2: ContextId, u2: string)
    requires |u1| == |u2| && Key(c1, u1) == Key(c2, u2)
    ensures c1 == c2 && u1 == u2
  {
    var k := Key(c1, u1);
    var d1, d2 := DecimalString(c1), DecimalString(c2);
    assert |d1| == |d2|;
    assert d1 == k[..|d1|] == d2;
    DecimalInjective(c1, c2);
    assert u1 == k[|d1|..] == u2;
  }

  /** Without the fixed length the concatenation is ambiguous: context 1 with
      attribute "2a" and context 12 with attribute "a" share a key. */
  lemma KeyAmbiguousWithoutFixedLength()
    ensures Key(1, "2a") == Key(12, "a") && "2a" != "a"
  {
    assert DecimalString(1) == "1";
    assert DecimalString(12) == DecimalString(1) + "2";
  }

  /** The registry's contents as a value: the known buffers and the hooks
      left on attributes. */
  datatype RegistryState = RegistryState(known: map<string, Handle>, hooks: seq<Hook>)

  /**
    What one `setupBuffer` does to the registry: for a key (`scid` followed
    by `uuid`) not yet known, the driver's handle is stored under it and an
    update hook and a delete hook capturing it are left on the attribute;
    a known key changes nothing. Every other key keeps its buffer and the
    earlier hooks stay in place.
  */
  function SetupState(s: RegistryState, scid: string, uuid: string, target: Target, handle: Handle): (t: RegistryState)
    ensures scid + uuid in t.known
    ensures scid + uuid in s.known ==> t == s
    ensures scid + uuid !in s.known ==> t.known[scid + uuid] == handle
    ensures t.known.Keys == s.known.Keys + {scid + uuid}
    ensures forall k :: k in s.known ==> k in t.known && t.known[k] == s.known[k]
    ensures |s.hooks| <= |t.hooks| && t.hooks[..|s.hooks|] == s.hooks
    ensures scid + uuid !in s.known ==> t.hooks[|s.hooks|..] == [UpdateHook(uuid, handle, target), DeleteHook(uuid, handle)]
  {
    var key := scid + uuid;
    if key in s.known then s
    else
      var t := RegistryState(s.known[key := handle], s.hooks + [UpdateHook(uuid, handle, target), DeleteHook(uuid, handle)]);
      assert t.known.Keys == s.known.Keys + {key};
      t
  }

  /** The process-wide `knownBuffers` map, with the hooks `setupBuffer` left
      on attributes and a count of the buffers generated so far. */
  class Registry {
    var known: map<string, Handle>
    var hooks: seq<Hook>
    ghost var generated: nat

    /** Each known key holds one generated buffer, and each generated buffer
        left one update hook and one delete hook. */
    ghost predicate Valid()
      reads this
    {
      generated == |known| && |hooks| == 2 * generated
    }

    constructor ()
      ensures Valid() && known == map[] && hooks == []
    {
      known := map[];
      hooks := [];
      generated := 0;
    }

    /** The registry's contents as a value. */
    function State(): RegistryState
      reads this
    {
      RegistryState(known, hooks)
    }

    /**
      `setupBuffer`: the key is the context's decimal id `scid` followed by
      the attribute's UUID; for a key not yet known, generate a buffer (the driver
      hands out `driverHandle`), register the attribute's update and delete
      hooks capturing it, and store it under the key; for a known key nothing
      changes. Every other key keeps its buffer.
    */
    method Setup(scid: string, uuid: string, target: Target, driverHandle: Handle)
      requires Valid()
      modifies this
      ensures Valid()
      ensures State() == SetupState(old(State()), scid, uuid, target, driverHandle)
      ensures generated == if scid + uuid in old(known) then old(generated) else old(generated) + 1
    {
      var key := scid + uuid;
      if key !in known {
        var bufp := driverHandle;
        hooks := hooks + [UpdateHook(uuid, bufp, target), DeleteHook(uuid, bufp)];
        assert (known[key := bufp]).Keys == known.Keys + {key};
        known := known[key := bufp];
        generated := generated + 1;
      }
    }
  }
}
