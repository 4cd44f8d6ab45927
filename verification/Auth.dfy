/** The identity a verified token carries (`AuthInfo` of CheckToken.h). */
module Auth {
  datatype AuthInfo = AuthInfo(ok: bool, sub: string, roles: seq<string>, permissions: seq<string>)
}
