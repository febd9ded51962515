/** NameIDTag as an opaque identity. Registries are keyed by the tag object
    itself (shared_ptr identity), never by its name string. The MD5 hash and the
    back-pointer the source stores in a tag are not part of this model. */
module NameIDTag {

  class Tag {
    const name: string
    const description: string

    /** NameIDTag::Register(name, reference): a new tag whose description is "<any>". */
    constructor Register(name: string)
      ensures this.name == name && description == "<any>"
    {
      this.name := name;
      description := "<any>";
    }
  }
}
