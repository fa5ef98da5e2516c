/** Image references: registry/repository:tag. */
module ImageRefs {
  import opened Wrappers
  import opened Strings

  datatype ImageRef = ImageRef(registry: string, repository: string, tag: string)

  datatype ImageError = Digest | MissingTag | MissingRegistry | NotARegistry | MissingRepository

  /** strings.Index and strings.LastIndex, -1 when there is none. */
  function Index(s: string, c: char): int {
    if c in s then IndexOf(s, c) else -1
  }

  function LastIndex(s: string, c: char): int {
    if c in s then LastIndexOf(s, c) else -1
  }

  predicate IsRegistryHost(s: string) {
    '.' in s || ':' in s || s == "localhost"
  }

  /** A ':' only starts a tag if it comes after the last '/'. */
  function CutTag(image: string): (string, string) {
    var i := LastIndex(image, ':');
    if i > LastIndex(image, '/') then (image[..i], image[i + 1..]) else (image, "")
  }

  function CutRegistry(name: string): Result<(string, string), ImageError> {
    var slash := Index(name, '/');
    if slash < 0 then Err(MissingRegistry)
    else if !IsRegistryHost(name[..slash]) then Err(NotARegistry)
    else if name[slash + 1..] == "" then Err(MissingRepository)
    else Ok((name[..slash], name[slash + 1..]))
  }

  function ParseImage(image: string): Result<ImageRef, ImageError> {
    if '@' in image then Err(Digest)
    else
      var (name, tag) := CutTag(image);
      if tag == "" then Err(MissingTag)
      else
        match CutRegistry(name)
        case Err(e) => Err(e)
        case Ok((registry, repository)) => Ok(ImageRef(registry, repository, tag))
  }

  function Print(r: ImageRef): string {
    r.registry + "/" + r.repository + ":" + r.tag
  }

  /** A registry host, a repository that may have slashes and colons, a tag that may not. */
  predicate Valid(r: ImageRef) {
    && IsRegistryHost(r.registry) && '/' !in r.registry && '@' !in r.registry
    && r.repository != "" && '@' !in r.repository
    && r.tag != "" && '/' !in r.tag && ':' !in r.tag && '@' !in r.tag
  }

  predicate IsTag(tag: string) {
    tag != "" && '/' !in tag && ':' !in tag
  }

  lemma CutIsTag(image: string, name: string, tag: string)
    requires CutTag(image) == (name, tag) && tag != ""
    ensures image == name + ":" + tag && IsTag(tag)
  {
    var i := LastIndexOf(image, ':');
    LastIndexAtLeast(image, '/', i + 1);
  }

  lemma CutIsRegistry(name: string, registry: string, repository: string)
    requires CutRegistry(name) == Ok((registry, repository))
    ensures name == registry + "/" + repository
    ensures IsRegistryHost(registry) && '/' !in registry && repository != ""
  {
  }

  lemma ParsedIsPrinted(image: string, r: ImageRef)
    requires ParseImage(image) == Ok(r)
    ensures image == Print(r) && Valid(r)
  {
    var name := CutTag(image).0;
    CutIsTag(image, name, r.tag);
    CutIsRegistry(name, r.registry, r.repository);
  }

  lemma TagIsCut(name: string, tag: string)
    requires IsTag(tag)
    ensures CutTag(name + ":" + tag) == (name, tag)
  {
    var image, i := name + ":" + tag, |name|;
    assert image[i] == ':' && image[i + 1..] == tag && image[..i] == name;
    assert image[i..] == ":" + tag;
    LastIndexOfUnique(image, ':', i);
    LastIndexAtLeast(image, '/', i);
  }

  lemma RegistryIsCut(registry: string, repository: string)
    requires IsRegistryHost(registry) && '/' !in registry && repository != ""
    ensures CutRegistry(registry + "/" + repository) == Ok((registry, repository))
  {
    var name, i := registry + "/" + repository, |registry|;
    assert name[i] == '/' && name[..i] == registry && name[i + 1..] == repository;
    IndexOfUnique(name, '/', i);
  }

  lemma PrintedIsParsed(r: ImageRef)
    requires Valid(r)
    ensures ParseImage(Print(r)) == Ok(r)
  {
    TagIsCut(r.registry + "/" + r.repository, r.tag);
    RegistryIsCut(r.registry, r.repository);
  }

  /** The parser accepts exactly the printed valid references, and reads each as what was printed. */
  lemma ParsesExactly(image: string, r: ImageRef)
    ensures ParseImage(image) == Ok(r) <==> image == Print(r) && Valid(r)
  {
    if ParseImage(image) == Ok(r) {
      ParsedIsPrinted(image, r);
    }
    if image == Print(r) && Valid(r) {
      PrintedIsParsed(r);
    }
  }

  predicate EndsInTag(image: string, name: string, tag: string) {
    IsTag(tag) && image == name + ":" + tag
  }

  lemma EndIsCut(image: string, name: string, tag: string)
    ensures EndsInTag(image, name, tag) ==> CutTag(image) == (name, tag)
  {
    if EndsInTag(image, name, tag) {
      TagIsCut(name, tag);
    }
  }

  lemma CutIsEnd(image: string)
    ensures CutTag(image).1 != "" ==> EndsInTag(image, CutTag(image).0, CutTag(image).1)
  {
    if CutTag(image).1 != "" {
      CutIsTag(image, CutTag(image).0, CutTag(image).1);
    }
  }

  /** A tag is missing exactly if the image does not end in a colon and a tag. */
  lemma MissesTagExactly(image: string)
    requires '@' !in image
    ensures ParseImage(image) == Err(MissingTag) <==> forall name, tag :: !EndsInTag(image, name, tag)
  {
    CutIsEnd(image);
    forall name, tag {
      EndIsCut(image, name, tag);
    }
  }

  /** What is read of a tagged image without a digest, by what stands before and behind its first slash. */
  lemma TaggedExactly(host: string, repository: string, tag: string)
    requires IsTag(tag) && '@' !in host + repository + tag && '/' !in host
    ensures ParseImage(host + ":" + tag) == Err(MissingRegistry)
    ensures ParseImage(host + "/" + repository + ":" + tag)
            == if '.' !in host && ':' !in host && host != "localhost" then Err(NotARegistry)
               else if repository == "" then Err(MissingRepository)
               else Ok(ImageRef(host, repository, tag))
  {
    TagIsCut(host, tag);
    var name, i := host + "/" + repository, |host|;
    TagIsCut(name, tag);
    assert name[i] == '/' && name[..i] == host && name[i + 1..] == repository;
    IndexOfUnique(name, '/', i);
    assert '@' !in name + ":" + tag && '@' !in host + ":" + tag by {
      assert forall c :: c in host || c in repository || c in tag ==> c in host + repository + tag;
    }
  }

  /** Two valid references print alike only if they are the same. */
  lemma PrintIsInjective(a: ImageRef, b: ImageRef)
    requires Valid(a) && Valid(b) && Print(a) == Print(b)
    ensures a == b
  {
    ParsesExactly(Print(a), a);
    ParsesExactly(Print(a), b);
  }
}
