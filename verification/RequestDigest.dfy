/** What the digest that identifies a request is computed over (internal/idempotency/digest.go). */
module RequestDigest {

  import opened Wrappers
  import opened Json
  import CanonicalNumbers

  /** Arguments are an object, or null where none were sent; zero and the empty string bind nothing. */
  datatype DigestInput = DigestInput(
    protocolVersion: int, principal: string, capability: string, arguments: Value, grantId: string,
    executionClass: string, authorityGeneration: int, authorityDigest: string, assuranceProfile: string,
    executionRoute: string, descriptorVersion: int, descriptorDigest: string)

  /** The members of the object that is hashed. */
  datatype Key =
    | ProtocolVersion | Principal | Capability | RequestArguments | GrantId | ExecutionClass | AuthorityGeneration
    | AuthorityDigest | AssuranceProfile | ExecutionRoute | DescriptorVersion | DescriptorDigest

  datatype Field = Int(value: int) | Text(text: string) | Arguments(arguments: Value)

  function NonZero(n: int): Option<Field> { if n == 0 then None else Some(Int(n)) }

  function NonEmpty(s: string): Option<Field> { if s == "" then None else Some(Text(s)) }

  /** What is bound under a key. */
  function Binding(input: DigestInput, key: Key): Option<Field>
  {
    match key
    case ProtocolVersion => Some(Int(input.protocolVersion))
    case Principal => Some(Text(input.principal))
    case Capability => Some(Text(input.capability))
    case RequestArguments => Some(Arguments(CanonicalNumbers.Normalized(input.arguments)))
    case GrantId => Some(Text(input.grantId))
    case ExecutionClass => Some(Text(input.executionClass))
    case AuthorityGeneration => NonZero(input.authorityGeneration)
    case AuthorityDigest => NonEmpty(input.authorityDigest)
    case AssuranceProfile => NonEmpty(input.assuranceProfile)
    case ExecutionRoute => NonEmpty(input.executionRoute)
    case DescriptorVersion => NonZero(input.descriptorVersion)
    case DescriptorDigest => NonEmpty(input.descriptorDigest)
  }

  /** The map holds exactly what is bound under the key. */
  ghost predicate Holds(m: map<Key, Field>, input: DigestInput, key: Key)
  {
    (key in m <==> Binding(input, key).Some?) && (key in m ==> m[key] == Binding(input, key).value)
  }

  /** The map holds exactly what is bound. */
  ghost predicate IsMaterial(m: map<Key, Field>, input: DigestInput) { forall key :: Holds(m, input, key) }

  predicate Always(key: Key)
  {
    || key.ProtocolVersion? || key.Principal? || key.Capability? || key.RequestArguments? || key.GrantId?
    || key.ExecutionClass?
  }

  predicate OfDescriptor(key: Key) { key.DescriptorVersion? || key.DescriptorDigest? }

  /** What is bound in any case. */
  method BaseMaterial(input: DigestInput) returns (m: map<Key, Field>)
    ensures forall key :: if Always(key) then Holds(m, input, key) else key !in m
  {
    m := map[ProtocolVersion := Int(input.protocolVersion), Principal := Text(input.principal),
      Capability := Text(input.capability), RequestArguments := Arguments(CanonicalNumbers.Normalized(input.arguments)),
      GrantId := Text(input.grantId), ExecutionClass := Text(input.executionClass)];
  }

  /** Authority, assurance and route, where there are any. */
  method WithAuthority(m: map<Key, Field>, input: DigestInput) returns (r: map<Key, Field>)
    requires forall key :: if Always(key) then Holds(m, input, key) else key !in m
    ensures forall key :: if OfDescriptor(key) then key !in r else Holds(r, input, key)
  {
    r := m;
    if input.authorityGeneration != 0 {
      r := r[AuthorityGeneration := Int(input.authorityGeneration)];
    }
    if input.authorityDigest != "" {
      r := r[AuthorityDigest := Text(input.authorityDigest)];
    }
    if input.assuranceProfile != "" {
      r := r[AssuranceProfile := Text(input.assuranceProfile)];
    }
    if input.executionRoute != "" {
      r := r[ExecutionRoute := Text(input.executionRoute)];
    }
  }

  /** The map whose canonical JSON is hashed. */
  method DigestMaterial(input: DigestInput) returns (m: map<Key, Field>)
    ensures IsMaterial(m, input)
  {
    m := BaseMaterial(input);
    m := WithAuthority(m, input);
    if input.descriptorVersion != 0 {
      m := m[DescriptorVersion := Int(input.descriptorVersion)];
    }
    if input.descriptorDigest != "" {
      m := m[DescriptorDigest := Text(input.descriptorDigest)];
    }
  }

  /** The same request: the same arguments as JSON values, and every other field alike. */
  ghost predicate SameRequest(a: DigestInput, b: DigestInput)
  {
    SameValue(a.arguments, b.arguments) && a == b.(arguments := a.arguments)
  }

  lemma BindingsAgree(a: DigestInput, b: DigestInput)
    requires forall key :: Binding(a, key) == Binding(b, key)
    ensures a == b.(arguments := a.arguments)
    ensures CanonicalNumbers.Normalized(a.arguments) == CanonicalNumbers.Normalized(b.arguments)
  {
    assert Binding(a, ProtocolVersion) == Binding(b, ProtocolVersion);
    assert Binding(a, Principal) == Binding(b, Principal);
    assert Binding(a, Capability) == Binding(b, Capability);
    assert Binding(a, RequestArguments) == Binding(b, RequestArguments);
    assert Binding(a, GrantId) == Binding(b, GrantId);
    assert Binding(a, ExecutionClass) == Binding(b, ExecutionClass);
    assert Binding(a, AuthorityGeneration) == Binding(b, AuthorityGeneration);
    assert Binding(a, AuthorityDigest) == Binding(b, AuthorityDigest);
    assert Binding(a, AssuranceProfile) == Binding(b, AssuranceProfile);
    assert Binding(a, ExecutionRoute) == Binding(b, ExecutionRoute);
    assert Binding(a, DescriptorVersion) == Binding(b, DescriptorVersion);
    assert Binding(a, DescriptorDigest) == Binding(b, DescriptorDigest);
  }

  /** Two requests are hashed from the same material exactly when they are the same request, however
      their numbers are spelled and although absent bindings are left out. */
  lemma SameMaterialIff(a: DigestInput, m: map<Key, Field>, b: DigestInput, n: map<Key, Field>)
    requires IsMaterial(m, a) && IsMaterial(n, b)
    ensures m == n <==> SameRequest(a, b)
  {
    CanonicalNumbers.NormalizedIff(a.arguments, b.arguments);
    if m == n {
      forall key ensures Binding(a, key) == Binding(b, key) {
        assert Holds(m, a, key) && Holds(n, b, key);
      }
      BindingsAgree(a, b);
    }
    if SameRequest(a, b) {
      forall key: Key ensures (key in m <==> key in n) && (key in m ==> m[key] == n[key]) {
        assert Holds(m, a, key) && Holds(n, b, key);
      }
    }
  }
}
