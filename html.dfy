/** The document tree produced by the HTML parser of `golang.org/x/net/html`,
    reduced to what the feature extractor reads: a node's type, its `Data`
    (the text of a text node, the tag name of an element) and its children in
    order (the `FirstChild`/`NextSibling` chain). */
module Html {
  datatype NodeType = ErrorNode | TextNode | DocumentNode | ElementNode | CommentNode | DoctypeNode | RawNode

  datatype Node = Node(typ: NodeType, data: string, children: seq<Node>)
}
