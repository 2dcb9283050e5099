/** Network addresses. */
module Net {

  datatype Host = Host(host: string, port: nat)
}
