/**
 The tokenizer's output, taken as the extractor's input. The HTML tokenizer
 itself (case normalisation of names, entity decoding, RCDATA handling of
 title content) is not part of this model: a document is the sequence of
 tokens the tokenizer would deliver, and running out of tokens is the
 tokenizer's end-of-stream error.
 */
module Tokens {
  import opened Bytes

  /** One `key="val"` pair of a tag, in the order written. */
  datatype Attribute = Attribute(key: Bytes, val: Bytes)

  datatype Token =
    | StartTag(name: Bytes, attrs: seq<Attribute>)
    | SelfClosingTag(name: Bytes, attrs: seq<Attribute>)
    | EndTag
    | Text(data: Bytes)
    | Comment
    | Doctype
    | Error

  /** A start or self-closing tag with the given name. */
  predicate IsTagNamed(t: Token, name: Bytes)
  {
    (t.StartTag? || t.SelfClosingTag?) && t.name == name
  }
}
