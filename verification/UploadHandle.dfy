/** Tenant names, staging keys and the check that an upload handle belongs to its tenant. */
module UploadHandle {
  import opened Common

  predicate IsNameChar(c: char) {
    'a' <= c <= 'z' || '0' <= c <= '9' || c == '_'
  }

  predicate IsAlnum(c: char) {
    'a' <= c <= 'z' || '0' <= c <= '9'
  }

  function Sanitized(s: string): string {
    seq(|s|, i requires 0 <= i < |s| => if IsNameChar(s[i]) then s[i] else '_')
  }

  predicate StartsWith(s: string, prefix: string) {
    |prefix| <= |s| && s[..|prefix|] == prefix
  }

  /** A namespace name: a letter, then 1 to 62 lower-case letters, digits or underscores. */
  predicate IsNamespace(s: string) {
    2 <= |s| <= 63 && 'a' <= s[0] <= 'z' && forall i :: 0 <= i < |s| ==> IsNameChar(s[i])
  }

  /** A raw tenant id made into a namespace, or refused. */
  function NormalizeTenant(raw: string, defaultTenant: string): Option<Tenant> {
    NamespaceFor(Sanitized(Lower(Trim(if raw == "" then defaultTenant else raw))))
  }

  function NamespaceFor(candidate: string): Option<Tenant> {
    if !HasAlnum(candidate) then None
    else
      var namespace := if StartsWith(candidate, "t_") then candidate else "t_" + candidate;
      if IsNamespace(namespace) then Some(namespace) else None
  }

  predicate HasAlnum(s: string) {
    exists i :: 0 <= i < |s| && IsAlnum(s[i])
  }

  lemma TrimNothing(s: string)
    requires s != "" ==> !IsSpace(s[0]) && !IsSpace(s[|s| - 1])
    ensures Trim(s) == s
  {
  }

  /** A namespace that starts with t_ is its own normal form. */
  lemma NamespaceIsNormal(t: string, defaultTenant: string)
    requires IsNamespace(t) && StartsWith(t, "t_")
    ensures NormalizeTenant(t, defaultTenant) == Some(t)
  {
    TrimNothing(t);
    assert Lower(t) == t;
    assert Sanitized(t) == t;
    assert t[0] == t[..2][0] == 't';
    assert IsAlnum(t[0]);
    assert HasAlnum(t);
    assert NamespaceFor(t) == Some(t);
  }

  /** Normalizing again changes nothing, and a namespace has no slash and starts with t_. */
  lemma NormalizeIsIdempotent(raw: string, defaultTenant: string)
    requires NormalizeTenant(raw, defaultTenant).Some?
    ensures var t := NormalizeTenant(raw, defaultTenant).value;
      && NormalizeTenant(t, defaultTenant) == Some(t)
      && StartsWith(t, "t_") && '/' !in t && t != ""
  {
    var t := NormalizeTenant(raw, defaultTenant).value;
    hide Trim, Lower, Sanitized;
    assert IsNamespace(t) && StartsWith(t, "t_");
    assert forall i :: 0 <= i < |t| ==> IsNameChar(t[i]);
    hide NormalizeTenant;
    NamespaceIsNormal(t, defaultTenant);
  }

  // ------------------------------------------------------------ which tenant an id stands for

  predicate IsLetterOrDigit(c: char) {
    'a' <= c <= 'z' || 'A' <= c <= 'Z' || '0' <= c <= '9'
  }

  /** What becomes of one character of an id: small letters, digits and underscores stay, capital letters
    * become small, and anything else becomes an underscore. */
  ghost predicate Kept(before: char, after: char) {
    && ('a' <= before <= 'z' || '0' <= before <= '9' || before == '_' ==> after == before)
    && ('A' <= before <= 'Z' ==> 'a' <= after <= 'z' && after - 'a' == before - 'A')
    && (!IsLetterOrDigit(before) ==> after == '_')
  }

  lemma SanitizedInWords(id: string)
    ensures var s := Sanitized(Lower(id));
      && |s| == |id| && (forall i :: 0 <= i < |id| ==> Kept(id[i], s[i]))
      && (HasAlnum(s) <==> exists i :: 0 <= i < |id| && IsLetterOrDigit(id[i]))
      && (StartsWith(s, "t_") <==> |id| >= 2 && (id[0] == 't' || id[0] == 'T') && !IsLetterOrDigit(id[1]))
  {
    var s := Sanitized(Lower(id));
    forall i | 0 <= i < |id| ensures Kept(id[i], s[i]) && (IsAlnum(s[i]) <==> IsLetterOrDigit(id[i])) {
      LowerInWords(id, i);
      hide LowerChar;
    }
    if HasAlnum(s) {
      var i :| 0 <= i < |s| && IsAlnum(s[i]);
      assert IsLetterOrDigit(id[i]);
    }
    if |id| >= 2 {
      assert StartsWith(s, "t_") <==> s[0] == 't' && s[1] == '_';
      assert Kept(id[0], s[0]) && Kept(id[1], s[1]);
      assert s[1] == '_' <==> !IsLetterOrDigit(id[1]);
      assert s[0] == 't' <==> id[0] == 't' || id[0] == 'T';
    }
  }

  /** The id an empty one stands for, without surrounding white space. */
  function Meant(raw: string, defaultTenant: string): string {
    Trim(if raw == "" then defaultTenant else raw)
  }

  /** In words: an id is accepted exactly when it has a letter or a digit and is not too long, and its
    * namespace is the id character by character, behind `t_` unless that is how it begins already. */
  lemma NormalizeInWords(raw: string, defaultTenant: string)
    ensures
      var id, t := Meant(raw, defaultTenant), NormalizeTenant(raw, defaultTenant);
      var marked := |id| >= 2 && (id[0] == 't' || id[0] == 'T') && !IsLetterOrDigit(id[1]);
      && (t.Some? <==> (exists i :: 0 <= i < |id| && IsLetterOrDigit(id[i])) && |id| <= (if marked then 63 else 61))
      && (t.Some? ==>
            var start := if marked then 0 else 2;
            && |t.value| == start + |id| && t.value[..2] == "t_"
            && forall i :: 0 <= i < |id| ==> Kept(id[i], t.value[start + i]))
  {
    var id := Meant(raw, defaultTenant);
    SanitizedInWords(id);
    var s := Sanitized(Lower(id));
    assert forall i :: 0 <= i < |s| ==> IsNameChar(s[i]);
    NamespaceInWords(s);
    assert NormalizeTenant(raw, defaultTenant) == NamespaceFor(s);
    hide *;
  }

  lemma NamespaceInWords(s: string)
    requires forall i :: 0 <= i < |s| ==> IsNameChar(s[i])
    ensures var t, start := NamespaceFor(s), if StartsWith(s, "t_") then 0 else 2;
      && (t.Some? <==> HasAlnum(s) && start + |s| <= 63)
      && (t.Some? ==> |t.value| == start + |s| && t.value[..2] == "t_"
                      && forall i :: 0 <= i < |s| ==> t.value[start + i] == s[i])
  {
    var namespace := if StartsWith(s, "t_") then s else "t_" + s;
    assert namespace[..2] == "t_";
    assert namespace[0] == namespace[..2][0] == 't';
    hide HasAlnum;
    assert forall i :: 0 <= i < |namespace| ==> IsNameChar(namespace[i]);
  }

  ghost predicate PlainId(id: string) {
    id != "" && forall i :: 0 <= i < |id| ==> 'a' <= id[i] <= 'z' || '0' <= id[i] <= '9' || id[i] == '_'
  }

  /** Ids of small letters, digits and underscores share a namespace only when they are the same, or one
    * is the other behind `t_`. */
  lemma PlainIdsStayApart(a: string, b: string, defaultTenant: string)
    requires PlainId(a) && PlainId(b)
    requires NormalizeTenant(a, defaultTenant).Some? && NormalizeTenant(b, defaultTenant).Some?
    ensures NormalizeTenant(a, defaultTenant) == NormalizeTenant(b, defaultTenant) <==>
      || a == b
      || (a == "t_" + b && !StartsWith(b, "t_"))
      || (b == "t_" + a && !StartsWith(a, "t_"))
  {
    PlainIdsAsTheyAre(a, defaultTenant);
    PlainIdsAsTheyAre(b, defaultTenant);
    hide NormalizeTenant;
    assert forall s: string :: ("t_" + s)[..2] == "t_" && ("t_" + s)[2..] == s;
  }

  lemma PlainIdsAsTheyAre(id: string, defaultTenant: string)
    requires PlainId(id)
    requires NormalizeTenant(id, defaultTenant).Some?
    ensures NormalizeTenant(id, defaultTenant).value == if StartsWith(id, "t_") then id else "t_" + id
  {
    TrimNothing(id);
    assert Lower(id) == id;
    assert Sanitized(id) == id;
  }

  // ------------------------------------------------------------ keys

  function StripLeft(s: string): string {
    if s != "" && s[0] == '/' then StripLeft(s[1..]) else s
  }

  function StripRight(s: string): string {
    if s != "" && s[|s| - 1] == '/' then StripRight(s[..|s| - 1]) else s
  }

  function Strip(s: string): string {
    StripRight(StripLeft(s))
  }

  lemma StripNothing(s: string)
    requires s != "" ==> s[0] != '/' && s[|s| - 1] != '/'
    ensures Strip(s) == s
  {
  }

  /** The text before the first slash and the text after it. */
  function Partition(s: string): (string, string) {
    if s == "" then ("", "")
    else if s[0] == '/' then ("", s[1..])
    else
      var (head, tail) := Partition(s[1..]);
      ([s[0]] + head, tail)
  }

  function StripEach(parts: seq<string>): seq<string> {
    if parts == [] then []
    else (if parts[0] != "" then [Strip(parts[0])] else []) + StripEach(parts[1..])
  }

  /** Bucket and key for a bucket-or-bucket/path setting and the parts below it. */
  function Resolve(location: string, parts: seq<string>): (string, string) {
    var (bucket, prefix) := Partition(Strip(location));
    (bucket, Join((if prefix != "" then [Strip(prefix)] else []) + StripEach(parts), "/"))
  }

  /** The staging key handed out for an upload. */
  function Minted(staging: string, tenant: Tenant, file: string): string {
    Resolve(staging, ["uploads", tenant, file]).1
  }

  /** The check made when a handle comes back. */
  predicate BelongsTo(staging: string, tenant: Tenant, handle: string) {
    StartsWith(handle, Resolve(staging, ["uploads", tenant]).1 + "/")
  }

  predicate PlainPart(s: string) {
    s != "" && '/' !in s
  }

  /** The part of every key above the tenant. */
  function Base(staging: string): string {
    var prefix := Partition(Strip(staging)).1;
    (if prefix != "" then Strip(prefix) + "/" else "") + "uploads/"
  }

  /** Parts without a slash go into a key as they are. */
  lemma PlainPartsKept(tenant: Tenant, file: string)
    requires PlainPart(tenant) && PlainPart(file)
    ensures StripEach(["uploads", tenant]) == ["uploads", tenant]
    ensures StripEach(["uploads", tenant, file]) == ["uploads", tenant, file]
  {
    StripNothing("uploads");
    StripNothing(tenant);
    StripNothing(file);
    hide Strip;
    var two, three := ["uploads", tenant], ["uploads", tenant, file];
    assert two[1..] == [tenant] && three[1..] == [tenant, file] && three[1..][1..] == [file];
    assert StripEach([tenant]) == [tenant] && StripEach([file]) == [file];
    assert StripEach([tenant, file]) == [tenant, file];
  }

  lemma JoinedParts(tenant: Tenant, file: string)
    ensures Join(["uploads", tenant], "/") == "uploads/" + tenant
    ensures Join(["uploads", tenant, file], "/") == "uploads/" + (tenant + "/" + file)
  {
    var two, three := ["uploads", tenant], ["uploads", tenant, file];
    assert two[1..] == [tenant] && three[1..] == [tenant, file] && three[1..][1..] == [file];
    assert Join([tenant, file], "/") == tenant + "/" + file;
  }

  /** Below a prefix, if there is one. */
  lemma JoinedBelow(prefix: string, parts: seq<string>)
    requires parts != []
    ensures Join((if prefix != "" then [Strip(prefix)] else []) + parts, "/") ==
      (if prefix != "" then Strip(prefix) + "/" else "") + Join(parts, "/")
  {
    hide Strip;
    if prefix != "" {
      JoinConcat([Strip(prefix)], parts, "/");
    } else {
      assert [] + parts == parts;
    }
  }

  function Slashes(n: nat): string {
    seq(n, i => '/')
  }

  /** Stripping takes off the slashes around a text, however many, and no more. */
  lemma StripInWords(before: nat, s: string, after: nat)
    requires s != "" ==> s[0] != '/' && s[|s| - 1] != '/'
    ensures Strip(Slashes(before) + s + Slashes(after)) == s
  {
    StripLeftInWords(before, s + Slashes(after));
    assert Slashes(before) + (s + Slashes(after)) == Slashes(before) + s + Slashes(after);
    if s == "" {
      AllSlashes(after);
      assert s + Slashes(after) == Slashes(after);
    } else {
      StripRightInWords(s, after);
      StripNothing(s);
    }
  }

  lemma {:induction false} AllSlashes(n: nat)
    ensures StripLeft(Slashes(n)) == ""
  {
    if n > 0 {
      assert Slashes(n)[1..] == Slashes(n - 1);
      AllSlashes(n - 1);
    }
  }

  lemma {:induction false} StripLeftInWords(n: nat, s: string)
    ensures StripLeft(Slashes(n) + s) == StripLeft(s)
  {
    var text := Slashes(n) + s;
    if n == 0 {
      assert text == s;
    } else {
      StripLeftInWords(n - 1, s);
      assert text[0] == '/' && text[1..] == Slashes(n - 1) + s;
    }
  }

  lemma {:induction false} StripRightInWords(s: string, n: nat)
    ensures StripRight(s + Slashes(n)) == StripRight(s)
  {
    var text := s + Slashes(n);
    if n == 0 {
      assert text == s;
    } else {
      StripRightInWords(s, n - 1);
      assert text[|text| - 1] == '/' && text[..|text| - 1] == s + Slashes(n - 1);
    }
  }

  predicate Stripped(s: string) {
    s != "" && s[0] != '/' && s[|s| - 1] != '/'
  }

  /** In words, for the two kinds of setting: a bucket, or a bucket and a path in it, with any number of
    * slashes around either. The key is the path and the parts joined by single slashes, in that bucket. */
  lemma ResolveInWords(bucket: string, path: string, tenant: Tenant, file: string, a: nat, b: nat, c: nat)
    requires PlainPart(bucket) && PlainPart(tenant) && PlainPart(file) && Stripped(path)
    ensures var key := "uploads/" + (tenant + "/" + file);
      && Resolve(Slashes(a) + bucket + Slashes(b), ["uploads", tenant, file]) == (bucket, key)
      && Resolve(Slashes(a) + (bucket + "/" + (Slashes(b) + path)) + Slashes(c), ["uploads", tenant, file])
         == (bucket, path + "/" + key)
  {
    var prefix := Slashes(b) + path;
    StripInWords(a, bucket, b);
    StripInWords(b, path, 0);
    assert Slashes(b) + path + Slashes(0) == prefix;
    StripInWords(a, bucket + "/" + prefix, c);
    PartitionInWords(bucket, prefix);
    ResolveBelow(Slashes(a) + bucket + Slashes(b), "", tenant, file);
    ResolveBelow(Slashes(a) + (bucket + "/" + prefix) + Slashes(c), prefix, tenant, file);
    var rest := "uploads/" + (tenant + "/" + file);
    hide *;
    assert "" + rest == rest;
  }

  lemma ResolveBelow(location: string, prefix: string, tenant: Tenant, file: string)
    requires PlainPart(tenant) && PlainPart(file) && prefix == Partition(Strip(location)).1
    ensures Resolve(location, ["uploads", tenant, file]) ==
      (Partition(Strip(location)).0,
       (if prefix != "" then Strip(prefix) + "/" else "") + ("uploads/" + (tenant + "/" + file)))
  {
    PlainPartsKept(tenant, file);
    JoinedParts(tenant, file);
    JoinedBelow(prefix, ["uploads", tenant, file]);
    hide Strip, StripEach, Join, Partition;
  }

  lemma {:induction false} PartitionInWords(head: string, tail: string)
    requires '/' !in head
    ensures Partition(head) == (head, "")
    ensures Partition(head + "/" + tail) == (head, tail)
  {
    if head != "" {
      PartitionInWords(head[1..], tail);
      assert (head + "/" + tail)[1..] == head[1..] + "/" + tail;
      assert [head[0]] + head[1..] == head;
    } else {
      assert head + "/" + tail == ['/'] + tail;
    }
  }

  lemma KeysUnderBase(staging: string, tenant: Tenant, file: string)
    requires PlainPart(tenant) && PlainPart(file)
    ensures Minted(staging, tenant, file) == Base(staging) + tenant + "/" + file
    ensures Resolve(staging, ["uploads", tenant]).1 == Base(staging) + tenant
  {
    hide Strip, StripEach, Join, Partition;
    var prefix := Partition(Strip(staging)).1;
    PlainPartsKept(tenant, file);
    JoinedParts(tenant, file);
    JoinedBelow(prefix, ["uploads", tenant]);
    JoinedBelow(prefix, ["uploads", tenant, file]);
  }

  /** For any bucket setting, a handle minted for one tenant passes another tenant's check exactly
    * when the tenants are the same. */
  lemma HandlesPartitionByTenant(staging: string, mine: Tenant, yours: Tenant, file: string)
    requires PlainPart(mine) && PlainPart(yours) && PlainPart(file)
    ensures BelongsTo(staging, yours, Minted(staging, mine, file)) <==> mine == yours
  {
    KeysUnderBase(staging, mine, file);
    KeysUnderBase(staging, yours, file);
    var base, handle, expected := Base(staging), Minted(staging, mine, file), Base(staging) + yours + "/";
    assert handle == base + (mine + "/" + file);
    if mine == yours {
      assert handle[..|expected|] == expected;
    } else if StartsWith(handle, expected) {
      SamePrefixSameName(mine, file, yours, base, handle);
      assert false;
    }
  }

  /** A slash-free name followed by a slash can only be read one way. */
  lemma SamePrefixSameName(mine: string, file: string, yours: string, base: string, handle: string)
    requires '/' !in mine && '/' !in yours && handle == base + (mine + "/" + file)
    requires StartsWith(handle, base + yours + "/")
    ensures mine == yours
  {
    var expected := base + yours + "/";
    assert forall i :: 0 <= i < |expected| ==> expected[i] == handle[..|expected|][i] == handle[i];
    assert handle[|base| + |mine|] == '/';
    assert expected[|base| + |yours|] == '/';
    assert forall i :: 0 <= i < |mine| ==> handle[|base| + i] == mine[i];
    assert forall i :: 0 <= i < |yours| ==> expected[|base| + i] == yours[i];
    assert |mine| == |yours|;
    assert forall i :: 0 <= i < |mine| ==> mine[i] == yours[i];
  }

  /** In terms of raw tenant ids: handles are partitioned by the normalized tenant. */
  lemma HandlesPartitionByNormalizedTenant(staging: string, a: string, b: string, defaultTenant: string, file: string)
    requires NormalizeTenant(a, defaultTenant).Some? && NormalizeTenant(b, defaultTenant).Some? && PlainPart(file)
    ensures var mine, yours := NormalizeTenant(a, defaultTenant).value, NormalizeTenant(b, defaultTenant).value;
      BelongsTo(staging, yours, Minted(staging, mine, file)) <==> mine == yours
  {
    NormalizeIsIdempotent(a, defaultTenant);
    NormalizeIsIdempotent(b, defaultTenant);
    HandlesPartitionByTenant(staging, NormalizeTenant(a, defaultTenant).value, NormalizeTenant(b, defaultTenant).value, file);
  }
}
