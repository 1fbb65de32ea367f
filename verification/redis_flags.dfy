/** The Redis flag reroute backend: one flag per offending session and IP, and a rollback token that joins the
    names of the flags written with "|". */
module RedisFlags {
  // "|".join(keys)
  function Join(keys: seq<string>): string {
    if keys == [] then ""
    else if |keys| == 1 then keys[0]
    else keys[0] + "|" + Join(keys[1..])
  }

  // token.split("|"), with the part read so far
  function Split(token: string, part: string): seq<string> {
    if token == "" then [part]
    else if token[0] == '|' then [part] + Split(token[1..], "")
    else Split(token[1..], part + [token[0]])
  }

  predicate BarFree(k: string) { '|' !in k }

  function SessionKey(prefix: string, session: string): string { prefix + ":flag:sess:" + session }

  function IpKey(prefix: string, ip: string): string { prefix + ":flag:ip:" + ip }

  // The flags a reroute writes, in order: the session's, if one is known, then each IP's
  function Keys(prefix: string, session: string, ips: seq<string>): seq<string> {
    if ips == [] then (if session == "" then [] else [SessionKey(prefix, session)])
    else Keys(prefix, session, ips[..|ips| - 1]) + [IpKey(prefix, ips[|ips| - 1])]
  }

  lemma {:induction false} KeysAreExact(prefix: string, session: string, ips: seq<string>)
    ensures Keys(prefix, session, ips) ==
            (if session == "" then [] else [prefix + ":flag:sess:" + session])
            + seq(|ips|, i requires 0 <= i < |ips| => prefix + ":flag:ip:" + ips[i])
  {
    if ips == [] {
    } else {
      KeysAreExact(prefix, session, ips[..|ips| - 1]);
    }
  }

  type Flags = map<string, string>

  function Set(flags: Flags, keys: seq<string>, requestId: string): Flags {
    if keys == [] then flags else Set(flags, keys[..|keys| - 1], requestId)[keys[|keys| - 1] := requestId]
  }

  ghost function KeySet(keys: seq<string>): set<string> { set k | k in keys }

  // The flags left after deleting every non-empty part of the token
  function Cleaned(flags: Flags, token: string): Flags {
    if token == "" then flags else map k | k in flags && (k == "" || k !in Split(token, "")) :: flags[k]
  }

  class RedisFlagAdapter {
    const prefix: string
    var flags: Flags

    constructor (prefix: string)
      ensures this.prefix == prefix && flags == map[]
    {
      this.prefix, flags := prefix, map[];
    }

    // Returns the token, which is also the rule id.
    method Reroute(ips: seq<string>, session: string, requestId: string) returns (token: string)
      modifies this
      ensures flags == Set(old(flags), Keys(prefix, session, ips), requestId)
      ensures token == Join(Keys(prefix, session, ips))
    {
      var keys: seq<string> := [];
      if session != "" {
        var k := SessionKey(prefix, session);
        flags := flags[k := requestId];
        keys := keys + [k];
        assert [k][..0] == [];
      }
      assert ips[..0] == [];
      for i := 0 to |ips|
        invariant keys == Keys(prefix, session, ips[..i])
        invariant flags == Set(old(flags), keys, requestId)
      {
        var k := IpKey(prefix, ips[i]);
        assert ips[..i + 1][..i] == ips[..i];
        assert (keys + [k])[..|keys|] == keys;
        flags := flags[k := requestId];
        keys := keys + [k];
      }
      assert ips[..|ips|] == ips;
      token := Join(keys);
    }

    method Cleanup(ruleId: string, rollbackToken: string)
      modifies this
      ensures flags == Cleaned(old(flags), if rollbackToken != "" then rollbackToken else ruleId)
    {
      var token := if rollbackToken != "" then rollbackToken else ruleId;
      if token == "" { return; }
      var parts := Split(token, "");
      for i := 0 to |parts|
        invariant flags == map k | k in old(flags) && (k == "" || k !in parts[..i]) :: old(flags)[k]
      {
        assert parts[..i + 1] == parts[..i] + [parts[i]];
        if parts[i] != "" {
          flags := flags - {parts[i]};
        }
      }
      assert parts[..|parts|] == parts;
    }
  }

  // The ghost shell's answer to the request that ends a session
  datatype HttpReply = Unreachable | Status(code: nat, jsonParses: bool)

  // End the session, then undo the flags. The session is over when it was ended now, or (404) had already expired; any
  // other answer raises and leaves the flags for a later attempt.
  method TerminateAfterTtl(adapter: RedisFlagAdapter, reply: HttpReply, ruleId: string, rollbackToken: string)
      returns (raised: bool)
    modifies adapter
    ensures raised <==> reply.Unreachable? || (reply.code != 404 && !(200 <= reply.code < 300 && reply.jsonParses))
    ensures raised ==> adapter.flags == old(adapter.flags)
    ensures !raised ==>
              adapter.flags == Cleaned(old(adapter.flags), if rollbackToken != "" then rollbackToken else ruleId)
  {
    if reply.Unreachable? { return true; }
    if reply.code != 404 {
      if !(200 <= reply.code < 300) || !reply.jsonParses { return true; }
    }
    adapter.Cleanup(ruleId, rollbackToken);
    return false;
  }

  // ---- Join and split ----

  lemma {:induction false} SplitWord(k: string, rest: string, part: string)
    requires BarFree(k)
    ensures Split(k + rest, part) == Split(rest, part + k)
  {
    if k == "" {
      assert k + rest == rest && part + k == part;
    } else {
      assert (k + rest)[1..] == k[1..] + rest && part + k == part + [k[0]] + k[1..];
      SplitWord(k[1..], rest, part + [k[0]]);
    }
  }

  lemma {:induction false} SplitJoin(keys: seq<string>)
    requires keys != [] && forall k | k in keys :: BarFree(k)
    ensures Split(Join(keys), "") == keys
  {
    var k := keys[0];
    assert "" + k == k;
    if |keys| == 1 {
      SplitWord(k, "", "");
      assert k + "" == k && keys == [k];
    } else {
      var rest := "|" + Join(keys[1..]);
      assert k + "|" + Join(keys[1..]) == k + rest && rest[1..] == Join(keys[1..]);
      SplitWord(k, rest, "");
      SplitJoin(keys[1..]);
    }
  }

  lemma {:induction false} PartsAreBarFree(token: string, part: string)
    requires BarFree(part)
    ensures forall p | p in Split(token, part) :: BarFree(p)
  {
    if token != "" { PartsAreBarFree(token[1..], if token[0] == '|' then "" else part + [token[0]]); }
  }

  lemma {:induction false} SetExactly(flags: Flags, keys: seq<string>, requestId: string)
    ensures Set(flags, keys, requestId) ==
            map k | k in flags.Keys + KeySet(keys) :: if k in keys then requestId else flags[k]
  {
    if keys == [] {
    } else {
      var front, last := keys[..|keys| - 1], keys[|keys| - 1];
      SetExactly(flags, front, requestId);
      assert keys == front + [last];
      assert KeySet(keys) == KeySet(front) + {last};
    }
  }

  lemma {:induction false} KeysAreNonEmpty(prefix: string, session: string, ips: seq<string>)
    ensures "" !in Keys(prefix, session, ips)
  {
    if ips == [] {
    } else {
      KeysAreNonEmpty(prefix, session, ips[..|ips| - 1]);
    }
  }

  lemma JoinNonEmpty(keys: seq<string>)
    requires keys != [] && "" !in keys
    ensures Join(keys) != ""
  {
    if |keys| > 1 { assert keys[0] != ""; }
  }

  // Reroute followed by cleanup leaves exactly the earlier flags minus the flags written, touching nothing else, if and
  // only if no flag name contains the separator: a name with a "|" in it falls to pieces and its flag stays.
  lemma CleanupUndoesExactlyBarFreeKeys(
      flags: Flags, prefix: string, session: string, ips: seq<string>, requestId: string)
    ensures var keys := Keys(prefix, session, ips);
            Cleaned(Set(flags, keys, requestId), Join(keys)) == flags - KeySet(keys) <==>
                forall k | k in keys :: BarFree(k)
  {
    var keys := Keys(prefix, session, ips);
    SetExactly(flags, keys, requestId);
    if keys == [] {
      assert flags - KeySet(keys) == flags;
    } else {
      KeysAreNonEmpty(prefix, session, ips);
      JoinNonEmpty(keys);
      if forall k | k in keys :: BarFree(k) {
        SplitJoin(keys);
      } else {
        var k :| k in keys && !BarFree(k);
        PartsAreBarFree(Join(keys), "");
        assert k in KeySet(keys) && k in Set(flags, keys, requestId);
      }
    }
  }
}
