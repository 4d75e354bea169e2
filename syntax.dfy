/**
 * The part of the oxc syntax tree the import visitor looks at.  Statements
 * and expressions share one datatype; every node kind the visitor does not
 * single out is an `OtherNode` whose children the default walk visits in
 * order.
 */
module Syntax {
  import opened Wrappers

  datatype Node =
    | ImportDeclaration(source: string)                                   // import … from "s"
    | ExportAllDeclaration(source: string)                                // export * from "s"
    | ExportNamedDeclaration(from: Option<string>, declaration: seq<Node>) // export {…} [from "s"] / export const …
    | StringLiteral(value: string)
    | Identifier(name: string)
    | CallExpression(callee: Node, arguments: seq<Node>)
    | SpreadElement(argument: Node)                                       // …x as a call argument
    | StaticMemberExpression(obj: Node, property: string)              // o.p
    | ComputedMemberExpression(obj: Node, expression: Node)            // o[e]
    | PrivateFieldExpression(obj: Node, field: string)                 // o.#f
    | ImportExpression(specifier: Node)                                   // import(e)
    | OtherNode(children: seq<Node>)

  type Program = seq<Node>

  /** The oxc `SourceType` constructors the parser is given. */
  datatype SourceType = Tsx | Ts | Jsx | Unambiguous | Mjs | Cjs | DefaultType
}
