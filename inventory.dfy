/** The one persisted entity, as both the backend and the browser client see it. */
module Inventory {

  /** An item record; `createdAt` is an opaque timestamp string assigned by the
      repository and `images` are the additional image URLs in upload order. */
  datatype Item = Item(
    id: string,
    name: string,
    itemType: string,
    description: string,
    coverImage: string,
    images: seq<string>,
    createdAt: string)
}
