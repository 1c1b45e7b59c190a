/**
 * The records of `Data.json`: each entry is a group of link buttons under a
 * generated id; the form page appends entries, the search and key pages read them.
 */
module LinkData {
  datatype LinkButton = LinkButton(buttonName: string, url: string)

  datatype Entry = Entry(id: string, buttons: seq<LinkButton>)
}
